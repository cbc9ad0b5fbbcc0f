/** Mark, wait out a grace period, delete: the machine behind both garbage collectors. */
module Collectors {
  import opened Wrappers

  /** The range of the clock readings and of the grace period. */
  const MIN_I64: int := -0x8000_0000_0000_0000
  const MAX_I64: int := 0x7fff_ffff_ffff_ffff

  function SaturatingSub(a: int, b: int): int {
    if a - b > MAX_I64 then MAX_I64 else if a - b < MIN_I64 then MIN_I64 else a - b
  }

  /** Saturation never changes which marks have outlived the grace period. */
  lemma {:induction false} SaturationHarmless(now: int, since: int, grace: int)
    requires 0 <= grace <= MAX_I64
    ensures SaturatingSub(now, since) >= grace <==> now - since >= grace
  {
  }

  datatype Verdict = Referenced | Marked | Waiting | Expired

  /** What a pass decides about one present item. */
  function Judge(mark: Option<int>, referenced: bool, now: int, grace: int): Verdict {
    if referenced then Referenced
    else if mark.None? then Marked
    else if SaturatingSub(now, mark.value) >= grace then Expired
    else Waiting
  }

  /** A pass saw some items, some of them referenced; a use put or pinned some. */
  datatype Event =
    | Swept(now: int, present: set<string>, referenced: set<string>)
    | Used(items: set<string>)

  /** The event gives no reason to keep the item. */
  predicate Quiet(event: Event, item: string) {
    match event
    case Swept(_, present, referenced) => item in present && item !in referenced
    case Used(items) => item !in items
  }

  /** Some pass marked the item at `since`, and every event from then on was quiet. */
  ghost predicate QuietSince(history: seq<Event>, item: string, since: int) {
    exists p :: 0 <= p < |history| && history[p].Swept? && history[p].now == since && QuietFrom(history, p, item)
  }

  ghost predicate QuietFrom(history: seq<Event>, p: nat, item: string) {
    forall q :: p <= q < |history| ==> Quiet(history[q], item)
  }

  ghost predicate Faithful(history: seq<Event>, marks: map<string, int>) {
    forall item :: item in marks ==> QuietSince(history, item, marks[item])
  }

  /** Marks that an event may leave: old ones it was quiet about, and fresh ones of the pass itself. */
  ghost predicate Follows(event: Event, before: map<string, int>, after: map<string, int>) {
    forall item :: item in after ==>
      Quiet(event, item) && ((item in before && before[item] == after[item]) || (event.Swept? && after[item] == event.now))
  }

  lemma {:induction false} StillFaithful(history: seq<Event>, event: Event, before: map<string, int>,
          after: map<string, int>)
    requires Faithful(history, before) && Follows(event, before, after)
    ensures Faithful(history + [event], after)
  {
    var longer := history + [event];
    forall item | item in after ensures QuietSince(longer, item, after[item]) {
      if item in before && before[item] == after[item] {
        var p :| 0 <= p < |history| && history[p].Swept? && history[p].now == before[item] && QuietFrom(history, p, item);
        assert QuietFrom(longer, p, item);
      } else {
        assert QuietFrom(longer, |history|, item);
      }
    }
  }

  /** A deletion is justified by a mark at least the grace period old and quiet ever since. */
  ghost predicate Justified(history: seq<Event>, item: string, now: int, grace: int) {
    exists since :: since <= now - grace && QuietSince(history, item, since)
  }
}
