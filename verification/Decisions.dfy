/** The policy of a run for a single file, and its grounds for leaving one alone. */
module Decisions {
  import opened Options
  import opened Calendar
  import opened Spans

  datatype Conflict = Error | Skip | Overwrite | Purge

  datatype Action = Create | Rewrite | Keep | Remove | Nothing

  datatype KeepReason = Skipped | History | Partial | Empty

  datatype Decision = Decided(action: Action, reason: Option<KeepReason>) | Refused

  predicate Writes(action: Action) {
    action == Create || action == Rewrite
  }

  /** Whether records of a file could be older than anything stored, so gone from the database. The
      file of all time always could; an empty database says nothing about a file of a period. */
  predicate BeforeHistory(whole: Span, history: Option<Moment>) {
    whole.after.None? || (history.Some? && whole.after.value < history.value)
  }

  function Decide(conflict: Conflict, present: bool, records: bool, partial: bool, beforeHistory: bool): Decision {
    if !present then
      Decided(if records then Create else Nothing, None)
    else
      match conflict
      case Error => Refused
      case Skip => Decided(Keep, Some(Skipped))
      case Purge => Decided(if records then Rewrite else Remove, None)
      case Overwrite =>
        if !records then Decided(Keep, Some(Empty))
        else if partial then Decided(Keep, Some(Partial))
        else if beforeHistory then Decided(Keep, Some(History))
        else Decided(Rewrite, None)
  }

  /** A file that exists is touched only by a purge, or by an overwrite that selects records of all
      its time and finds none of that time before the oldest record. Nothing is written without
      records, only `error` refuses, and the reason given for keeping a file is the first that holds. */
  lemma OnlyAskedForIsTouched(conflict: Conflict, present: bool, records: bool, partial: bool, beforeHistory: bool)
    ensures var decision := Decide(conflict, present, records, partial, beforeHistory);
            && (decision.Refused? <==> present && conflict == Error)
            && (decision.Decided? ==>
                  && (Writes(decision.action) ==> records)
                  && (decision.action == Keep <==> decision.reason.Some?)
                  && (present && decision.action != Keep ==>
                        conflict == Purge || (conflict == Overwrite && records && !partial && !beforeHistory))
                  && (decision.reason == Some(Empty) ==> !records)
                  && (decision.reason == Some(Partial) ==> records && partial)
                  && (decision.reason == Some(History) ==> records && !partial && beforeHistory)
                  && (decision.reason == Some(Skipped) <==> present && conflict == Skip)
                  && (decision.action == Remove <==> present && conflict == Purge && !records))
  {
  }
}
