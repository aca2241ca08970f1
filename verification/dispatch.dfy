/**
 * `dispatchUpdates`: extract ratings from a batch of updates and hand at most one
 * `APPLY_PAMA_RATING` action to the store's `dispatch` callback.
 */
module Dispatch {
  import opened Wrappers
  import opened RatingExtractor

  /** The `APPLY_PAMA_RATING` action object. */
  datatype PamaAction = ApplyPamaRating(resourceId: Option<string>, rating: string)

  function ToAction(x: ExtractedRating): (a: PamaAction)
    ensures a.resourceId == x.resourceId && a.rating == x.rating
  {
    ApplyPamaRating(x.resourceId, x.rating)
  }

  function Actions(rs: seq<ExtractedRating>): (r: seq<PamaAction>)
    ensures |r| == |rs|
    ensures forall i :: 0 <= i < |r| ==> r[i].resourceId == rs[i].resourceId && r[i].rating == rs[i].rating
  {
    seq(|rs|, i requires 0 <= i < |rs| => ToAction(rs[i]))
  }

  /** The `dispatch` callback, seen as the log of everything it has been handed. */
  class Dispatcher {
    var emitted: seq<PamaAction>

    constructor ()
      ensures emitted == []
    {
      emitted := [];
    }

    method Dispatch(a: PamaAction)
      modifies this
      ensures emitted == old(emitted) + [a]
    {
      emitted := emitted + [a];
    }
  }

  /** `updates.flatMap(actionToRating)`: any update that faults makes the whole batch fault. */
  function FlatRatings(updates: seq<Update>): (r: Result<seq<ExtractedRating>, Fault>)
    ensures r.Ok? ==> forall i :: 0 <= i < |updates| ==> ActionToRating(updates[i]).Ok?
    ensures r.Err? ==> exists i :: 0 <= i < |updates| && ActionToRating(updates[i]) == Err(r.error)
  {
    if updates == [] then Ok([])
    else
      match ActionToRating(updates[0])
      case Err(f) => Err(f)
      case Ok(rs) =>
        match FlatRatings(updates[1..])
        case Err(f) => Err(f)
        case Ok(rest) => Ok(rs + rest)
  }

  /** What `dispatchUpdates` hands to `dispatch`: the first extracted rating, if any (`slice(0, 1)`). */
  function Dispatched(updates: seq<Update>): (r: Result<seq<PamaAction>, Fault>)
    ensures r.Ok? ==> |r.value| <= 1
  {
    match FlatRatings(updates)
    case Err(f) => Err(f)
    case Ok(rs) => Ok(Actions(rs[..if |rs| < 1 then |rs| else 1]))
  }

  /** The actions a dispatch result leaves in the log. */
  function Emitted(r: Result<seq<PamaAction>, Fault>): seq<PamaAction> {
    if r.Ok? then r.value else []
  }

  /** The JavaScript statement's completion: normal, or the TypeError it throws. */
  function Completion(r: Result<seq<PamaAction>, Fault>): Outcome<Fault> {
    if r.Ok? then Pass else Fail(r.error)
  }

  /** `dispatchUpdates(dispatch, updates)` */
  method DispatchUpdates(d: Dispatcher, updates: seq<Update>) returns (outcome: Outcome<Fault>)
    modifies d
    ensures outcome == Completion(Dispatched(updates))
    ensures d.emitted == old(d.emitted) + Emitted(Dispatched(updates))
  {
    var all := FlatRatings(updates);
    if all.Err? {
      return Fail(all.error);
    }
    var first := all.value[..if |all.value| < 1 then |all.value| else 1];
    for i := 0 to |first|
      invariant d.emitted == old(d.emitted) + Actions(first[..i])
    {
      assert Actions(first[..i + 1]) == Actions(first[..i]) + [ToAction(first[i])];
      d.Dispatch(ToAction(first[i]));
    }
    assert first[..|first|] == first;
    outcome := Pass;
  }

  /** The batch faults exactly when some update in it faults, even one after a rating-bearing update. */
  lemma {:induction false} BatchFaultIff(updates: seq<Update>)
    ensures Dispatched(updates).Err? <==> exists i :: 0 <= i < |updates| && ActionToRating(updates[i]).Err?
  {
    if updates != [] {
      BatchFaultIff(updates[1..]);
      if ActionToRating(updates[0]).Ok? {
        forall i | 1 <= i < |updates|
          ensures ActionToRating(updates[i]) == ActionToRating(updates[1..][i - 1])
        {
        }
        assert FlatRatings(updates).Err? <==> FlatRatings(updates[1..]).Err?;
      }
    }
  }

  lemma {:induction false} FlatRatingsFirst(updates: seq<Update>, i: nat)
    requires i < |updates|
    requires forall j :: 0 <= j < |updates| ==> ActionToRating(updates[j]).Ok?
    requires forall j :: 0 <= j < i ==> ActionToRating(updates[j]).value == []
    requires ActionToRating(updates[i]).value != []
    ensures FlatRatings(updates).Ok? && FlatRatings(updates).value != []
    ensures FlatRatings(updates).value[0] == ActionToRating(updates[i]).value[0]
  {
    BatchFaultIff(updates[1..]);
    assert forall j :: 0 <= j < |updates| - 1 ==> updates[1..][j] == updates[j + 1];
    if i > 0 {
      FlatRatingsFirst(updates[1..], i - 1);
    }
  }

  /**
   * First wins: when every update extracts cleanly, the single dispatched action carries
   * the first rating of the first update that has one.
   */
  lemma DispatchFirstWins(updates: seq<Update>, i: nat)
    requires i < |updates|
    requires forall j :: 0 <= j < |updates| ==> ActionToRating(updates[j]).Ok?
    requires forall j :: 0 <= j < i ==> ActionToRating(updates[j]).value == []
    requires ActionToRating(updates[i]).value != []
    ensures Dispatched(updates) == Ok([ToAction(ActionToRating(updates[i]).value[0])])
  {
    FlatRatingsFirst(updates, i);
    var rs := FlatRatings(updates).value;
    assert rs[..1] == [rs[0]];
    assert Actions([rs[0]]) == [ToAction(rs[0])];
  }

  /** A clean batch dispatches exactly one action iff some update in it carries a rating. */
  lemma {:induction false} DispatchExactlyOneIff(updates: seq<Update>)
    requires Dispatched(updates).Ok?
    ensures |Dispatched(updates).value| == 1 <==>
            exists i :: 0 <= i < |updates| && ActionToRating(updates[i]).Ok? && ActionToRating(updates[i]).value != []
  {
    if updates != [] {
      var rest := updates[1..];
      assert FlatRatings(rest).Ok?;
      DispatchExactlyOneIff(rest);
      assert forall j :: 0 <= j < |rest| ==> rest[j] == updates[j + 1];
      if ActionToRating(updates[0]).value == [] {
        assert FlatRatings(updates).value == [] + FlatRatings(rest).value == FlatRatings(rest).value;
        if exists i :: 0 <= i < |updates| && ActionToRating(updates[i]).Ok? && ActionToRating(updates[i]).value != [] {
          var i :| 0 <= i < |updates| && ActionToRating(updates[i]).Ok? && ActionToRating(updates[i]).value != [];
          assert i > 0 && ActionToRating(rest[i - 1]).value != [];
        }
      }
    }
  }
}
