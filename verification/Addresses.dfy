/** Component addresses and selectors: tests on their text against relations on lists of names. */
module Addresses {
  import opened Options

  type Name = string

  predicate NameStart(c: char) {
    'a' <= c <= 'z' || 'A' <= c <= 'Z' || c == '_' || c == '-'
  }

  predicate IsName(name: Name) {
    && name != [] && NameStart(name[0])
    && forall i :: 0 <= i < |name| ==> NameStart(name[i]) || '0' <= name[i] <= '9'
  }

  predicate AreNames(names: seq<Name>) {
    names != [] && forall i :: 0 <= i < |names| ==> IsName(names[i])
  }

  /** The engine, or a component by its names from the top down. */
  datatype Address = Engine | Component(names: seq<Name>)

  predicate Valid(a: Address) {
    a.Component? ==> AreNames(a.names)
  }

  function Join(names: seq<Name>): string {
    if names == [] then "" else if |names| == 1 then names[0] else names[0] + "." + Join(names[1..])
  }

  function Text(a: Address): string {
    match a
    case Engine => "~"
    case Component(names) => "@" + Join(names)
  }

  // ---------------------------------------------------------------- text facts

  predicate Free(text: string, c: char) {
    forall i :: 0 <= i < |text| ==> text[i] != c
  }

  lemma NamesAreFree(name: Name)
    requires IsName(name)
    ensures Free(name, '.') && Free(name, ':') && Free(name, '@') && Free(name, '~')
  {
  }

  /** The first `c` at or after `start`, or the length when there is none. */
  function CharFrom(text: string, c: char, start: nat): (at: nat)
    requires start <= |text|
    ensures start <= at <= |text|
    ensures at < |text| ==> text[at] == c
    decreases |text| - start
  {
    if start == |text| || text[start] == c then start else CharFrom(text, c, start + 1)
  }

  lemma {:induction false} CharAt(text: string, c: char, start: nat, at: nat)
    requires start <= at <= |text|
    requires forall i :: start <= i < at ==> text[i] != c
    requires at < |text| ==> text[at] == c
    ensures CharFrom(text, c, start) == at
    decreases at - start
  {
    if start < at {
      CharAt(text, c, start + 1, at);
    }
  }

  lemma FirstAfter(x: string, c: char, rest: string)
    requires Free(x, c) && (rest == [] || rest[0] == c)
    ensures CharFrom(x + rest, c, 0) == |x|
  {
    forall i | 0 <= i < |x| ensures (x + rest)[i] != c {
      assert (x + rest)[i] == x[i];
    }
    CharAt(x + rest, c, 0, |x|);
  }

  lemma {:induction false} FirstInPrefix(a: string, b: string, c: char, start: nat)
    requires a <= b && start <= |a| && CharFrom(a, c, start) < |a|
    ensures CharFrom(b, c, start) == CharFrom(a, c, start)
    decreases |a| - start
  {
    assert start < |a| ==> a[start] == b[start];
    if start < |a| && a[start] != c {
      FirstInPrefix(a, b, c, start + 1);
    }
  }

  lemma DotsSplit(x: string, u: string, y: string, v: string)
    requires Free(x, '.') && Free(y, '.') && x + "." + u <= y + "." + v
    ensures x == y && u <= v
  {
    var a, b := x + "." + u, y + "." + v;
    assert a == x + ("." + u) && b == y + ("." + v);
    FirstAfter(x, '.', "." + u);
    FirstAfter(y, '.', "." + v);
    FirstInPrefix(a, b, '.', 0);
    assert |x| == |y|;
    assert x == a[..|x|] == b[..|x|] == y;
    assert a[|x| + 1..] == u && b[|x| + 1..] == v;
    assert a[|x| + 1..] <= b[|x| + 1..];
  }

  /** Text before a first dot is compared whole. */
  lemma DotPrefix(x: string, u: string, y: string, v: string)
    requires Free(x, '.') && Free(y, '.')
    ensures x + "." + u <= y + "." + v <==> x == y && u <= v
  {
    if x + "." + u <= y + "." + v {
      DotsSplit(x, u, y, v);
    }
    if x == y && u <= v {
      assert y + "." + v == x + "." + u + v[|u|..];
    }
  }

  lemma NoDotNoPrefix(x: string, y: string)
    requires Free(y, '.')
    ensures !(x + "." <= y)
  {
    assert (x + ".")[|x|] == '.';
  }

  /** One address text followed by a dot starts another exactly when its names do, properly. */
  lemma {:induction false} PrefixIsAncestor(a: seq<Name>, b: seq<Name>)
    requires AreNames(a) && AreNames(b)
    ensures Join(a) + "." <= Join(b) <==> a < b
    decreases |a|
  {
    NamesAreFree(a[0]);
    NamesAreFree(b[0]);
    if |b| == 1 {
      NoDotNoPrefix(Join(a), b[0]);
      assert a < b ==> |a| < 1;
    } else if |a| == 1 {
      DotPrefix(a[0], "", b[0], Join(b[1..]));
      assert Join(a) + "." == a[0] + "." + "";
      assert a < b <==> a[0] == b[0];
    } else {
      var a', b' := a[1..], b[1..];
      assert AreNames(a') && AreNames(b');
      PrefixIsAncestor(a', b');
      DotPrefix(a[0], Join(a') + ".", b[0], Join(b'));
      assert Join(a) + "." == a[0] + "." + (Join(a') + ".");
      assert a == [a[0]] + a' && b == [b[0]] + b';
    }
  }

  lemma {:induction false} JoinInjective(a: seq<Name>, b: seq<Name>)
    requires AreNames(a) && AreNames(b)
    ensures Join(a) == Join(b) <==> a == b
    decreases |a|
  {
    if Join(a) == Join(b) {
      NamesAreFree(a[0]);
      NamesAreFree(b[0]);
      assert |b| > 1 ==> Join(b)[|b[0]|] == '.';
      assert |a| > 1 ==> Join(a)[|a[0]|] == '.';
      if |a| > 1 && |b| > 1 {
        var a', b' := a[1..], b[1..];
        assert AreNames(a') && AreNames(b');
        DotPrefix(a[0], Join(a'), b[0], Join(b'));
        DotPrefix(b[0], Join(b'), a[0], Join(a'));
        JoinInjective(a', b');
        assert a == [a[0]] + a' && b == [b[0]] + b';
      }
    }
  }

  lemma {:induction false} JoinFree(names: seq<Name>, c: char)
    requires AreNames(names) && c in {':', '@', '~'}
    ensures Free(Join(names), c)
  {
    NamesAreFree(names[0]);
    if |names| > 1 {
      assert AreNames(names[1..]);
      JoinFree(names[1..], c);
    }
  }

  lemma TextsDiffer(a: Address, b: Address)
    requires Valid(a) && Valid(b)
    ensures Text(a) == Text(b) <==> a == b
  {
    if a.Component? && b.Component? {
      JoinInjective(a.names, b.names);
      assert Join(a.names) == Text(a)[1..] && Join(b.names) == Text(b)[1..];
    }
  }

  // ---------------------------------------------------------------- containment

  /** Whether an address is another or above it, as the texts are compared. */
  predicate ContainsText(a: string, b: string) {
    a == "~" || b == a || (b != "~" && a + "." <= b)
  }

  predicate Contains(a: Address, b: Address) {
    a.Engine? || (b.Component? && a.names <= b.names)
  }

  lemma AncestorText(a: seq<Name>, b: seq<Name>)
    requires AreNames(a) && AreNames(b)
    ensures Text(Component(a)) + "." <= Text(Component(b)) <==> a < b
  {
    var x, y := Join(a) + ".", Join(b);
    assert Text(Component(a)) + "." == "@" + x;
    assert "@" + x <= "@" + y <==> x <= y by {
      if "@" + x <= "@" + y {
        assert forall i :: 0 <= i < |x| ==> x[i] == ("@" + x)[i + 1] == ("@" + y)[i + 1] == y[i];
      }
    }
    PrefixIsAncestor(a, b);
  }

  /** The text test means containment by names. */
  lemma ContainsMeansPrefix(a: Address, b: Address)
    requires Valid(a) && Valid(b)
    ensures ContainsText(Text(a), Text(b)) <==> Contains(a, b)
  {
    TextsDiffer(a, b);
    if a.Component? {
      assert Text(a)[0] == '@';
      if b.Component? {
        assert Text(b)[0] == '@';
        AncestorText(a.names, b.names);
      }
    }
  }

  /** So containment on the texts is a partial order with the engine at the top. */
  lemma ContainsIsPartialOrder(a: Address, b: Address, c: Address)
    requires Valid(a) && Valid(b) && Valid(c)
    ensures ContainsText(Text(a), Text(a)) && ContainsText(Text(Engine), Text(a))
    ensures ContainsText(Text(a), Text(b)) && ContainsText(Text(b), Text(a)) ==> a == b
    ensures ContainsText(Text(a), Text(b)) && ContainsText(Text(b), Text(c)) ==> ContainsText(Text(a), Text(c))
  {
    ContainsMeansPrefix(a, b);
    ContainsMeansPrefix(b, a);
    ContainsMeansPrefix(b, c);
    ContainsMeansPrefix(a, c);
  }

  // ---------------------------------------------------------------- selectors

  datatype Modifier = Exactly | All | Children | Descendants

  /** What a selector segment starts from: the engine, every component, the root it is read
      against, or names from the top or from that root. */
  datatype Base = AtEngine | Everything | AtRoot | Absolute(names: seq<Name>) | Relative(names: seq<Name>)

  datatype Segment = Segment(base: Base, modifier: Modifier)

  /** The segments the grammar allows. A lone `all` is read as `:all`, so it names no component. */
  predicate WellFormed(seg: Segment) {
    match seg.base
    case AtEngine => seg.modifier != Children
    case Everything => seg.modifier != Exactly
    case AtRoot => seg.modifier != Exactly
    case Absolute(names) => AreNames(names)
    case Relative(names) => AreNames(names) && !(names == ["all"] && seg.modifier == Exactly)
  }

  function BaseText(base: Base): string {
    match base
    case AtEngine => "~"
    case Everything => "@"
    case AtRoot => ""
    case Absolute(names) => "@" + Join(names)
    case Relative(names) => Join(names)
  }

  function ModifierText(modifier: Modifier): string {
    match modifier
    case Exactly => ""
    case All => ":all"
    case Children => ":children"
    case Descendants => ":descendants"
  }

  function SegmentText(seg: Segment): string {
    BaseText(seg.base) + ModifierText(seg.modifier)
  }

  function Normalized(text: string): string {
    if text == "all" then ":all" else text
  }

  function RootText(root: Option<Address>): string {
    if root.None? || root.value.Engine? then "@" else Text(root.value)
  }

  predicate StartsWith(text: string, c: char) {
    text != [] && text[0] == c
  }

  /** One segment's text made absolute. */
  function AbsoluteText(text: string, root: string): string {
    var segment := Normalized(text);
    if StartsWith(segment, ':') then root + segment
    else if StartsWith(segment, '~') || StartsWith(segment, '@') then segment
    else if root == "@" then root + segment
    else root + "." + segment
  }

  function Dots(text: string): nat {
    if text == [] then 0 else (if text[0] == '.' then 1 else 0) + Dots(text[1..])
  }

  /** Whether one absolute segment's text selects an address, as the texts are compared. */
  predicate SegmentMatches(text: string, address: string) {
    var segment := Normalized(text);
    var at := CharFrom(segment, ':', 0);
    if at == |segment| then address == segment
    else
      var base, modifier := segment[..at], segment[at + 1..];
      if base == "~" then
        modifier == "all" || (modifier == "descendants" && address != "~")
      else if base == "@" then
        if modifier == "all" || modifier == "descendants" then address != "~"
        else modifier == "children" && StartsWith(address, '@') && '.' !in address
      else if modifier == "all" then address == base || base + "." <= address
      else if modifier == "descendants" then base + "." <= address
      else modifier == "children" && base + "." <= address
           && Dots(if |base| + 2 <= |address| then address[|base| + 2..] else "") == 0
  }

  // ---------------------------------------------------------------- several segments

  /** The segments of a selector's text, cut at every bar. */
  function Split(text: string): (segments: seq<string>)
    ensures segments != []
    decreases |text|
  {
    var at := CharFrom(text, '|', 0);
    if at == |text| then [text] else [text[..at]] + Split(text[at + 1..])
  }

  function Barred(segments: seq<string>): string {
    if segments == [] then "" else if |segments| == 1 then segments[0] else segments[0] + "|" + Barred(segments[1..])
  }

  predicate AllFree(segments: seq<string>) {
    forall i :: 0 <= i < |segments| ==> Free(segments[i], '|')
  }

  lemma {:induction false} BeforeFirst(text: string, c: char, start: nat, i: nat)
    requires start <= |text| && start <= i < CharFrom(text, c, start)
    ensures text[i] != c
    decreases |text| - start
  {
    if start < i {
      BeforeFirst(text, c, start + 1, i);
    }
  }

  /** No segment holds a bar. */
  lemma {:induction false} SplitIsFree(text: string)
    ensures AllFree(Split(text))
    decreases |text|
  {
    var at := CharFrom(text, '|', 0);
    forall i | 0 <= i < at ensures text[i] != '|' {
      BeforeFirst(text, '|', 0, i);
    }
    if at < |text| {
      SplitIsFree(text[at + 1..]);
    }
  }

  /** Segments put back together are cut into the same segments again. */
  lemma {:induction false} SplitInvertsBarred(segments: seq<string>)
    requires segments != [] && AllFree(segments)
    ensures Split(Barred(segments)) == segments
    decreases |segments|
  {
    var first := segments[0];
    if |segments| == 1 {
      FirstAfter(first, '|', "");
      assert first + "" == first;
    } else {
      var rest := Barred(segments[1..]);
      FirstAfter(first, '|', "|" + rest);
      assert Barred(segments) == first + ("|" + rest);
      assert (first + ("|" + rest))[|first| + 1..] == rest;
      SplitInvertsBarred(segments[1..]);
    }
  }

  function Absolutes(segments: seq<string>, root: string): (absolutes: seq<string>)
    ensures |absolutes| == |segments|
    ensures forall i :: 0 <= i < |segments| ==> absolutes[i] == AbsoluteText(segments[i], root)
  {
    if segments == [] then [] else [AbsoluteText(segments[0], root)] + Absolutes(segments[1..], root)
  }

  lemma AbsolutesAreFree(segments: seq<string>, root: string)
    requires AllFree(segments) && Free(root, '|')
    ensures AllFree(Absolutes(segments, root))
  {
  }

  /** A selector made absolute, segment by segment. */
  method AsAbsolute(text: string, root: string) returns (absolute: string)
    requires Free(root, '|')
    ensures Split(absolute) == Absolutes(Split(text), root)
  {
    var segments := Split(text);
    var absolutes: seq<string> := [];
    for i := 0 to |segments|
      invariant |absolutes| == i && forall j :: 0 <= j < i ==> absolutes[j] == AbsoluteText(segments[j], root)
    {
      absolutes := absolutes + [AbsoluteText(segments[i], root)];
    }
    assert absolutes == Absolutes(segments, root);
    SplitIsFree(text);
    AbsolutesAreFree(segments, root);
    SplitInvertsBarred(absolutes);
    return Barred(absolutes);
  }

  method MatchesAny(segments: seq<string>, address: string) returns (found: bool)
    ensures found <==> exists i :: 0 <= i < |segments| && SegmentMatches(segments[i], address)
  {
    hide SegmentMatches;
    for i := 0 to |segments|
      invariant forall j :: 0 <= j < i ==> !SegmentMatches(segments[j], address)
    {
      if SegmentMatches(segments[i], address) {
        return true;
      }
    }
    return false;
  }

  /** A selector matches when one of its segments, read against the root, does. */
  method Matches(text: string, address: string, root: string) returns (found: bool)
    requires Free(root, '|')
    ensures found <==>
            exists i :: 0 <= i < |Split(text)| && SegmentMatches(AbsoluteText(Split(text)[i], root), address)
  {
    hide SegmentMatches;
    hide AbsoluteText;
    hide Split;
    hide Absolutes;
    var absolute := AsAbsolute(text, root);
    var segments := Split(absolute);
    assert |segments| == |Split(text)|;
    found := MatchesAny(segments, address);
  }

  // ---------------------------------------------------------------- what selectors mean

  /** The base as names: what a segment starts from once read against a root. */
  function Resolve(base: Base, root: Option<Address>): Base {
    var names := if root.Some? && root.value.Component? then root.value.names else [];
    match base
    case AtRoot => if names == [] then Everything else Absolute(names)
    case Relative(more) => Absolute(names + more)
    case _ => base
  }

  predicate Selects(seg: Segment, root: Option<Address>, address: Address) {
    match Resolve(seg.base, root)
    case AtEngine =>
      (match seg.modifier
       case Exactly => address.Engine?
       case All => true
       case _ => !address.Engine?)
    case Everything =>
      address.Component? && (seg.modifier == Children ==> |address.names| == 1)
    case Absolute(names) =>
      address.Component? &&
      (match seg.modifier
       case Exactly => address.names == names
       case All => names <= address.names
       case Descendants => names < address.names
       case Children => names < address.names && |address.names| == |names| + 1)
    case _ => false
  }

  lemma {:induction false} DotsJoin(x: string, y: string)
    ensures Dots(x + y) == Dots(x) + Dots(y)
  {
    if x == [] {
      assert x + y == y;
    } else {
      assert (x + y)[1..] == x[1..] + y;
      DotsJoin(x[1..], y);
    }
  }

  lemma {:induction false} FreeHasNoDots(text: string)
    requires Free(text, '.')
    ensures Dots(text) == 0 && '.' !in text
  {
    if text != [] {
      FreeHasNoDots(text[1..]);
    }
  }

  /** A text has one dot fewer than it has names. */
  lemma {:induction false} DotsCountNames(names: seq<Name>)
    requires AreNames(names)
    ensures Dots(Join(names)) == |names| - 1
  {
    NamesAreFree(names[0]);
    FreeHasNoDots(names[0]);
    if |names| > 1 {
      assert AreNames(names[1..]);
      DotsCountNames(names[1..]);
      DotsJoin(names[0], "." + Join(names[1..]));
      assert names[0] + ("." + Join(names[1..])) == Join(names);
      assert ("." + Join(names[1..]))[1..] == Join(names[1..]);
    }
  }

  lemma {:induction false} DotsFound(text: string)
    ensures Dots(text) == 0 <==> '.' !in text
  {
    if text != [] {
      DotsFound(text[1..]);
    }
  }

  lemma {:induction false} JoinConcat(a: seq<Name>, b: seq<Name>)
    requires AreNames(a) && AreNames(b)
    ensures AreNames(a + b) && Join(a + b) == Join(a) + "." + Join(b)
  {
    if |a| == 1 {
      assert (a + b)[1..] == b;
    } else {
      assert AreNames(a[1..]);
      JoinConcat(a[1..], b);
      assert (a + b)[1..] == a[1..] + b;
    }
  }

  /** Making a segment absolute resolves its base and keeps its modifier. */
  lemma AbsoluteResolves(seg: Segment, root: Option<Address>)
    requires WellFormed(seg) && (root.Some? ==> Valid(root.value))
    ensures WellFormed(Segment(Resolve(seg.base, root), seg.modifier))
    ensures AbsoluteText(SegmentText(seg), RootText(root))
              == SegmentText(Segment(Resolve(seg.base, root), seg.modifier))
  {
    if seg.base.Relative? {
      RelativeResolves(seg.base.names, seg.modifier, root);
    } else {
      var text := SegmentText(seg);
      assert text[0] == match seg.base case AtEngine => '~' case AtRoot => ':' case _ => '@';
      assert text != "all";
    }
  }

  lemma RelativeResolves(names: seq<Name>, modifier: Modifier, root: Option<Address>)
    requires WellFormed(Segment(Relative(names), modifier)) && (root.Some? ==> Valid(root.value))
    ensures var seg := Segment(Relative(names), modifier);
            && WellFormed(Segment(Resolve(seg.base, root), modifier))
            && AbsoluteText(SegmentText(seg), RootText(root)) ==
              SegmentText(Segment(Resolve(seg.base, root), modifier))
  {
    hide AbsoluteText;
    hide Join;
    hide IsName;
    hide ModifierText;
    PlainText(names, modifier);
    PlainIsPrefixed(Join(names) + ModifierText(modifier), RootText(root));
    if root.Some? && root.value.Component? {
      NamesUnderRoot(root.value.names, names, ModifierText(modifier));
    } else {
      assert [] + names == names;
      assert "@" + (Join(names) + ModifierText(modifier)) == "@" + Join(names) + ModifierText(modifier);
    }
  }

  lemma PlainText(names: seq<Name>, modifier: Modifier)
    requires AreNames(names) && !(names == ["all"] && modifier == Exactly)
    ensures var text := Join(names) + ModifierText(modifier);
            text != [] && text[0] != ':' && text[0] != '~' && text[0] != '@' && text != "all"
  {
    FirstChar(names);
    RelativeIsNotAll(names, modifier);
    assert (Join(names) + ModifierText(modifier))[0] == Join(names)[0];
  }

  lemma NamesUnderRoot(above: seq<Name>, names: seq<Name>, more: string)
    requires AreNames(above) && AreNames(names)
    ensures AreNames(above + names) && Text(Component(above)) != "@"
    ensures Text(Component(above)) + "." + (Join(names) + more) == "@" + Join(above + names) + more
  {
    JoinConcat(above, names);
    RootIsLonger(above);
    hide Join;
    hide AreNames;
    assert "@" + Join(above) + "." + (Join(names) + more) == "@" + (Join(above) + "." + Join(names)) + more;
  }

  /** Plain names are put under the root. */
  lemma PlainIsPrefixed(text: string, root: string)
    requires text != [] && text[0] != ':' && text[0] != '~' && text[0] != '@' && text != "all"
    ensures AbsoluteText(text, root) == if root == "@" then root + text else root + "." + text
  {
  }

  lemma FirstChar(names: seq<Name>)
    requires AreNames(names)
    ensures Join(names) != [] && Join(names)[0] == names[0][0]
    ensures Join(names)[0] != ':' && Join(names)[0] != '~' && Join(names)[0] != '@'
  {
  }

  lemma RootIsLonger(names: seq<Name>)
    requires AreNames(names)
    ensures Text(Component(names)) != "@"
  {
    NamesAreFree(names[0]);
    assert Join(names)[0] == names[0][0];
  }

  lemma RelativeIsNotAll(names: seq<Name>, modifier: Modifier)
    requires AreNames(names) && !(names == ["all"] && modifier == Exactly)
    ensures Join(names) + ModifierText(modifier) != "all"
  {
    var text := Join(names) + ModifierText(modifier);
    assert modifier != Exactly ==> text[|Join(names)|] == ':';
    if modifier == Exactly {
      assert text == Join(names);
      assert AreNames(["all"]);
      JoinInjective(names, ["all"]);
    }
  }

  /** Resolving twice changes nothing more, against any root. */
  lemma AbsoluteIsIdempotent(text: string, root: Option<Address>, other: string)
    ensures var absolute := AbsoluteText(text, RootText(root)); AbsoluteText(absolute, other) == absolute
  {
    var absolute := AbsoluteText(text, RootText(root));
    assert absolute[0] == '@' || absolute[0] == '~';
  }

  lemma ColonSplits(base: string, modifier: Modifier)
    requires Free(base, ':')
    ensures var text := base + ModifierText(modifier);
            && CharFrom(text, ':', 0) == |base|
            && text[..|base|] == base
            && (modifier != Exactly ==> [':'] + text[|base| + 1..] == ModifierText(modifier))
  {
    FirstAfter(base, ':', ModifierText(modifier));
  }

  lemma ChildrenCountDots(base: seq<Name>, names: seq<Name>)
    requires AreNames(base) && AreNames(names) && base < names
    ensures var b, text := Text(Component(base)), Text(Component(names));
            |b| + 2 <= |text| && (Dots(text[|b| + 2..]) == 0 <==> |names| == |base| + 1)
  {
    hide Join;
    hide Dots;
    hide IsName;
    var rest := names[|base|..];
    RestAreNames(base, names);
    JoinConcat(base, rest);
    TailDots(rest);
    hide AreNames;
    AfterDot(Join(base), Join(rest));
  }

  lemma RestAreNames(base: seq<Name>, names: seq<Name>)
    requires AreNames(base) && AreNames(names) && base < names
    ensures AreNames(names[|base|..]) && base + names[|base|..] == names
  {
  }

  lemma AfterDot(base: string, tail: string)
    requires tail != []
    ensures var b, text := "@" + base, "@" + (base + "." + tail);
            |b| + 2 <= |text| && text[|b| + 2..] == tail[1..]
  {
  }

  lemma TailDots(names: seq<Name>)
    requires AreNames(names)
    ensures Join(names) != [] && Dots(Join(names)[1..]) == |names| - 1
  {
    DotsCountNames(names);
    NamesAreFree(names[0]);
    FirstChar(names);
  }

  /** An absolute segment's text selects exactly the addresses its names mean. */
  lemma AbsoluteMeaning(seg: Segment, address: Address)
    requires WellFormed(seg) && Valid(address) && !seg.base.AtRoot? && !seg.base.Relative?
    ensures SegmentMatches(SegmentText(seg), Text(address)) <==> Selects(seg, None, address)
  {
    var base, text := BaseText(seg.base), Text(address);
    match seg.base
    case AtEngine => EngineMeaning(seg.modifier, address);
    case Everything => EverythingMeaning(seg.modifier, address);
    case Absolute(names) => NamesMeaning(names, seg.modifier, address);
  }

  lemma TextStarts(address: Address)
    ensures Text(address)[0] == if address.Engine? then '~' else '@'
    ensures address.Engine? <==> Text(address) == "~"
  {
  }

  lemma EngineMeaning(modifier: Modifier, address: Address)
    requires modifier != Children
    ensures SegmentMatches("~" + ModifierText(modifier), Text(address)) <==>
            Selects(Segment(AtEngine, modifier), None, address)
  {
    TextStarts(address);
    ColonSplits("~", modifier);
    assert ("~" + ModifierText(modifier))[0] == '~';
    if modifier != Exactly {
      assert ModifierText(modifier)[1..] == if modifier == All then "all" else "descendants";
    }
  }

  lemma EverythingMeaning(modifier: Modifier, address: Address)
    requires modifier != Exactly && Valid(address)
    ensures SegmentMatches("@" + ModifierText(modifier), Text(address)) <==>
            Selects(Segment(Everything, modifier), None, address)
  {
    TextStarts(address);
    EverythingMatches(modifier, Text(address));
    hide SegmentMatches;
    if address.Component? {
      DotsCountNames(address.names);
      DotsFound(Join(address.names));
      assert '.' in Text(address) <==> '.' in Join(address.names);
    }
  }

  lemma EverythingMatches(modifier: Modifier, address: string)
    requires modifier != Exactly
    ensures SegmentMatches("@" + ModifierText(modifier), address) ==
            if modifier == Children then StartsWith(address, '@') && '.' !in address else address != "~"
  {
    hide CharFrom;
    ColonSplits("@", modifier);
    assert ("@" + ModifierText(modifier))[0] == '@';
    ModifierNames(modifier);
  }

  lemma ModifierNames(modifier: Modifier)
    requires modifier != Exactly
    ensures ModifierText(modifier)[1..] ==
            match modifier case All => "all" case Children => "children" case _ => "descendants"
  {
  }

  lemma NamesMeaning(names: seq<Name>, modifier: Modifier, address: Address)
    requires AreNames(names) && Valid(address)
    ensures SegmentMatches("@" + Join(names) + ModifierText(modifier), Text(address))
              == Selects(Segment(Absolute(names), modifier), None, address)
  {
    var base := Text(Component(names));
    NamesRelate(names, address);
    JoinFree(names, ':');
    RootIsLonger(names);
    PlainBaseMatches(base, modifier, Text(address));
    hide SegmentMatches;
    hide Join;
    hide Dots;
    hide AreNames;
  }

  /** The tests a base of names leads to. */
  lemma PlainBaseMatches(base: string, modifier: Modifier, address: string)
    requires Free(base, ':') && base != "~" && base != "@" && StartsWith(base, '@')
    ensures SegmentMatches(base + ModifierText(modifier), address) ==
            match modifier
            case Exactly => address == base
            case All => address == base || base + "." <= address
            case Descendants => base + "." <= address
            case Children =>
              base + "." <= address && Dots(if |base| + 2 <= |address| then address[|base| + 2..] else "") == 0
  {
    hide Dots;
    hide CharFrom;
    ColonSplits(base, modifier);
    assert (base + ModifierText(modifier))[0] == '@';
    if modifier != Exactly {
      ModifierNames(modifier);
    } else {
      assert base + "" == base;
    }
  }

  /** The relations of an address to names, on its text. */
  lemma NamesRelate(names: seq<Name>, address: Address)
    requires AreNames(names) && Valid(address)
    ensures var base, text := Text(Component(names)), Text(address);
            && (text == base <==> address == Component(names))
            && (base + "." <= text <==> address.Component? && names < address.names)
            && (base + "." <= text ==>
                  |base| + 2 <= |text| && (Dots(text[|base| + 2..]) == 0 <==> |address.names| == |names| + 1))
  {
    TextsDiffer(address, Component(names));
    if address.Component? {
      AncestorText(names, address.names);
      if names < address.names {
        ChildrenCountDots(names, address.names);
      }
    } else {
      assert |Text(Component(names)) + "."| > 1;
    }
  }

  /** A selector's text, read against a root, selects exactly the addresses its names mean: the
      base itself, everything below it, its immediate children, or all of these. */
  lemma SelectorMeaning(seg: Segment, root: Option<Address>, address: Address)
    requires WellFormed(seg) && Valid(address) && (root.Some? ==> Valid(root.value))
    ensures SegmentMatches(AbsoluteText(SegmentText(seg), RootText(root)), Text(address)) <==>
            Selects(seg, root, address)
  {
    var absolute := Segment(Resolve(seg.base, root), seg.modifier);
    AbsoluteResolves(seg, root);
    AbsoluteMeaning(absolute, address);
  }

  /** Matching `:all` of an address is being contained in it. */
  lemma AllIsContains(a: Address, b: Address, root: string)
    requires Valid(a) && Valid(b)
    ensures SegmentMatches(AbsoluteText(Text(a) + ":all", root), Text(b)) <==> ContainsText(Text(a), Text(b))
  {
    var seg := Segment(if a.Engine? then AtEngine else Absolute(a.names), All);
    assert SegmentText(seg) == Text(a) + ":all";
    assert SegmentText(seg)[0] == Text(a)[0];
    AbsoluteMeaning(seg, b);
    ContainsMeansPrefix(a, b);
  }

  // ---------------------------------------------------------------- parents and paths

  /** One past the last dot, or 0 when there is none. */
  function AfterLastDot(text: string): (at: nat)
    ensures at <= |text|
  {
    if text == [] then 0
    else if text[|text| - 1] == '.' then |text|
    else AfterLastDot(text[..|text| - 1])
  }

  function ParentText(text: string): (parent: Option<string>)
    ensures parent.Some? ==> |parent.value| < |text|
  {
    var at := AfterLastDot(text);
    if at == 0 then None else Some(text[..at - 1])
  }

  /** An address's chain of parents, read from above. */
  function PathText(text: string): seq<string>
    decreases |text|
  {
    var parent := ParentText(text);
    (if parent.None? then [] else PathText(parent.value)) + [text]
  }

  function Reversed(texts: seq<string>): seq<string> {
    if texts == [] then [] else Reversed(texts[1..]) + [texts[0]]
  }

  lemma {:induction false} ReversedAppends(texts: seq<string>, last: string)
    ensures Reversed(texts + [last]) == [last] + Reversed(texts)
  {
    if texts == [] {
      assert texts + [last] == [last];
    } else {
      assert (texts + [last])[1..] == texts[1..] + [last];
      ReversedAppends(texts[1..], last);
    }
  }

  method Path(text: string) returns (path: seq<string>)
    ensures path == PathText(text)
  {
    var upward := [];
    var current := Some(text);
    while current.Some?
      invariant PathText(text) == (if current.None? then [] else PathText(current.value)) + Reversed(upward)
      decreases if current.None? then 0 else |current.value| + 1
    {
      ReversedAppends(upward, current.value);
      upward := upward + [current.value];
      current := ParentText(current.value);
    }
    path := [];
    for i := 0 to |upward|
      invariant Reversed(upward) == Reversed(upward[i..]) + path
    {
      assert upward[i..][1..] == upward[i + 1..];
      path := [upward[i]] + path;
    }
  }

  lemma {:induction false} LastDotAfter(before: string, name: string)
    requires Free(name, '.')
    ensures AfterLastDot(before + "." + name) == |before| + 1
    decreases |name|
  {
    var text := before + "." + name;
    if name != [] {
      assert text[..|text| - 1] == before + "." + name[..|name| - 1];
      LastDotAfter(before, name[..|name| - 1]);
    }
  }

  lemma {:induction false} NoLastDot(text: string)
    requires Free(text, '.')
    ensures AfterLastDot(text) == 0
  {
    if text != [] {
      NoLastDot(text[..|text| - 1]);
    }
  }

  /** A parent's text is the address without its last name. */
  lemma ParentDropsLast(names: seq<Name>)
    requires AreNames(names)
    ensures ParentText(Text(Component(names)))
              == if |names| == 1 then None else Some(Text(Component(names[..|names| - 1])))
  {
    hide IsName;
    hide ParentText;
    hide AfterLastDot;
    var last := names[|names| - 1];
    NamesAreFree(last);
    if |names| == 1 {
      assert Free("@" + last, '.');
      NoParent("@" + last);
    } else {
      var above := names[..|names| - 1];
      AboveAreNames(names);
      assert AreNames([last]) && names == above + [last];
      JoinConcat(above, [last]);
      ParentOfDotted(Text(Component(above)), last);
      assert Join([last]) == last;
      assert "@" + (Join(above) + "." + last) == ("@" + Join(above)) + "." + last;
    }
  }

  lemma NoParent(text: string)
    requires Free(text, '.')
    ensures ParentText(text) == None
  {
    NoLastDot(text);
  }

  lemma ParentOfDotted(before: string, name: string)
    requires Free(name, '.')
    ensures ParentText(before + "." + name) == Some(before)
  {
    LastDotAfter(before, name);
    assert (before + "." + name)[..|before|] == before;
  }

  /** A component's path holds the texts of its ancestors and itself, from the top down. */
  lemma {:induction false} PathIsPrefixes(names: seq<Name>, i: nat)
    requires AreNames(names) && i < |names|
    ensures |PathText(Text(Component(names)))| == |names|
    ensures PathText(Text(Component(names)))[i] == Text(Component(names[..i + 1]))
    decreases |names|
  {
    hide Join;
    hide IsName;
    hide AfterLastDot;
    ParentDropsLast(names);
    hide ParentText;
    if |names| > 1 {
      var above := names[..|names| - 1];
      AboveAreNames(names);
      PathIsPrefixes(above, if i < |above| then i else 0);
      assert i < |above| ==> above[..i + 1] == names[..i + 1];
    }
    assert names[..|names|] == names;
  }

  lemma AboveAreNames(names: seq<Name>)
    requires AreNames(names) && |names| > 1
    ensures AreNames(names[..|names| - 1])
  {
  }
}
