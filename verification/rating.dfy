/**
 * Rating extraction (`actionToRating`): the PAMA appropriateness ratings carried by
 * the `extension` entries of an updated resource.
 */
module RatingExtractor {
  import opened Wrappers
  import opened Fhir

  /** The extension URI that marks a PAMA rating; a wire-format constant. */
  const PamaRatingUrl: string := "http://fhir.org/argonaut/Extension/pama-rating"

  /** The record extraction reads: a system action or a message payload, of which only `resource` is used. */
  datatype Update = Update(resource: Option<Resource>)

  datatype ExtractedRating = ExtractedRating(rating: string, resourceId: Option<string>)

  /** The places where the JavaScript would throw a TypeError instead of returning. */
  datatype Fault =
    | MissingResource              // `action.resource.id` with no `resource`
    | MissingValueCodeableConcept  // a rating extension without `valueCodeableConcept`
    | MissingCoding                // a `valueCodeableConcept` without a `coding` array

  predicate IsPamaRating(e: Extension) {
    e.url == PamaRatingUrl
  }

  /** A rating extension that extraction can read without faulting. */
  predicate Readable(e: Extension) {
    e.valueCodeableConcept.Some? && e.valueCodeableConcept.value.coding.Some?
  }

  function CodingsOf(e: Extension): seq<Coding>
    requires Readable(e)
  {
    e.valueCodeableConcept.value.coding.value
  }

  /** `resource.extension || []` */
  function ExtensionsOf(res: Resource): (r: seq<Extension>)
    ensures res.extension.None? ==> r == []
    ensures res.extension.Some? ==> r == res.extension.value
  {
    res.extension.GetOr([])
  }

  /** The `filter` on the rating URI, keeping order. */
  function PamaExtensions(exts: seq<Extension>): (r: seq<Extension>)
    ensures |r| <= |exts|
    ensures forall i :: 0 <= i < |r| ==> IsPamaRating(r[i])
  {
    if exts == [] then []
    else if IsPamaRating(exts[0]) then [exts[0]] + PamaExtensions(exts[1..])
    else PamaExtensions(exts[1..])
  }

  /** One rating per coding, in coding order. */
  function RatingsOfCodings(codings: seq<Coding>, id: Option<string>): (r: seq<ExtractedRating>)
    ensures |r| == |codings|
    ensures forall i :: 0 <= i < |r| ==> r[i].rating == codings[i].code && r[i].resourceId == id
  {
    seq(|codings|, i requires 0 <= i < |codings| => ExtractedRating(codings[i].code, id))
  }

  /** The `flatMap` over the (already filtered) extensions; the first unreadable one faults. */
  function RatingsOf(exts: seq<Extension>, id: Option<string>): (r: Result<seq<ExtractedRating>, Fault>)
    ensures r.Ok? ==> forall x :: x in r.value ==> x.resourceId == id
    ensures r != Err(MissingResource)
  {
    if exts == [] then Ok([])
    else
      match exts[0].valueCodeableConcept
      case None => Err(MissingValueCodeableConcept)
      case Some(cc) =>
        match cc.coding
        case None => Err(MissingCoding)
        case Some(codings) =>
          match RatingsOf(exts[1..], id)
          case Err(f) => Err(f)
          case Ok(rest) => Ok(RatingsOfCodings(codings, id) + rest)
  }

  /** `actionToRating`: all ratings of an update's resource, or the fault the JavaScript would throw. */
  function ActionToRating(u: Update): (r: Result<seq<ExtractedRating>, Fault>)
    ensures u.resource.None? <==> r == Err(MissingResource)
    ensures u.resource.Some? && u.resource.value.extension.None? ==> r == Ok([])
    ensures r.Ok? ==> u.resource.Some? && forall x :: x in r.value ==> x.resourceId == u.resource.value.id
  {
    match u.resource
    case None => Err(MissingResource)
    case Some(res) => RatingsOf(PamaExtensions(ExtensionsOf(res)), res.id)
  }

  /** Number of ratings the readable rating extensions among `exts` carry. */
  ghost function PamaCodingCount(exts: seq<Extension>): nat {
    if exts == [] then 0
    else (if IsPamaRating(exts[0]) && Readable(exts[0]) then |CodingsOf(exts[0])| else 0)
         + PamaCodingCount(exts[1..])
  }

  /** One step of the `flatMap`: the ratings of a leading readable extension come first. */
  lemma RatingsOfCons(exts: seq<Extension>, id: Option<string>)
    requires exts != []
    ensures RatingsOf(exts, id).Ok? <==> Readable(exts[0]) && RatingsOf(exts[1..], id).Ok?
    ensures RatingsOf(exts, id).Ok? ==>
              RatingsOf(exts, id).value == RatingsOfCodings(CodingsOf(exts[0]), id) + RatingsOf(exts[1..], id).value
  {
  }

  /** The `flatMap` faults exactly when one of the extensions it reads is unreadable. */
  lemma {:induction false} RatingsOfOkIff(exts: seq<Extension>, id: Option<string>)
    ensures RatingsOf(exts, id).Ok? <==> forall e :: e in exts ==> Readable(e)
  {
    if exts != [] {
      RatingsOfOkIff(exts[1..], id);
      RatingsOfCons(exts, id);
      assert forall e :: e in exts <==> e == exts[0] || e in exts[1..];
    }
  }

  /** The filter keeps exactly the rating extensions. */
  lemma {:induction false} PamaExtensionsMembers(exts: seq<Extension>)
    ensures forall e :: e in PamaExtensions(exts) <==> e in exts && IsPamaRating(e)
  {
    if exts != [] {
      PamaExtensionsMembers(exts[1..]);
      assert forall e :: e in exts <==> e == exts[0] || e in exts[1..];
    }
  }

  /** Extraction succeeds exactly when every rating extension carries a readable coding list. */
  lemma ExtractionOkIff(res: Resource)
    ensures ActionToRating(Update(Some(res))).Ok? <==>
            forall e :: e in ExtensionsOf(res) && IsPamaRating(e) ==> Readable(e)
  {
    RatingsOfOkIff(PamaExtensions(ExtensionsOf(res)), res.id);
    PamaExtensionsMembers(ExtensionsOf(res));
  }

  /** The filter works entry by entry. */
  lemma {:induction false} PamaExtensionsAppend(a: seq<Extension>, b: seq<Extension>)
    ensures PamaExtensions(a + b) == PamaExtensions(a) + PamaExtensions(b)
  {
    if a == [] {
      assert a + b == b;
    } else {
      assert (a + b)[0] == a[0];
      assert (a + b)[1..] == a[1..] + b;
      PamaExtensionsAppend(a[1..], b);
    }
  }

  /** An extension with any other URI, wherever it stands, has no influence on extraction. */
  lemma IgnoresOtherExtensions(id: Option<string>, before: seq<Extension>, other: Extension, after: seq<Extension>)
    requires !IsPamaRating(other)
    ensures ActionToRating(Update(Some(Resource(id, Some(before + [other] + after)))))
         == ActionToRating(Update(Some(Resource(id, Some(before + after)))))
  {
    PamaExtensionsAppend(before + [other], after);
    PamaExtensionsAppend(before, [other]);
    PamaExtensionsAppend(before, after);
    assert PamaExtensions([other]) == PamaExtensions([]) == [];
    assert PamaExtensions(before + [other] + after) == PamaExtensions(before + after);
  }

  /** Every coding of a rating extension yields exactly one rating: the count. */
  lemma {:induction false} ExtractionCount(exts: seq<Extension>, id: Option<string>)
    requires RatingsOf(PamaExtensions(exts), id).Ok?
    ensures |RatingsOf(PamaExtensions(exts), id).value| == PamaCodingCount(exts)
  {
    if exts != [] {
      var pama := PamaExtensions(exts);
      if IsPamaRating(exts[0]) {
        assert pama[0] == exts[0] && pama[1..] == PamaExtensions(exts[1..]);
        RatingsOfCons(pama, id);
      } else {
        assert pama == PamaExtensions(exts[1..]);
      }
      ExtractionCount(exts[1..], id);
    }
  }

  /** A leading rating extension contributes its ratings first. */
  lemma PamaHead(exts: seq<Extension>, id: Option<string>)
    requires exts != [] && IsPamaRating(exts[0]) && RatingsOf(PamaExtensions(exts), id).Ok?
    ensures Readable(exts[0]) && RatingsOf(PamaExtensions(exts[1..]), id).Ok?
    ensures RatingsOf(PamaExtensions(exts), id).value
         == RatingsOfCodings(CodingsOf(exts[0]), id) + RatingsOf(PamaExtensions(exts[1..]), id).value
  {
    var pama := PamaExtensions(exts);
    assert pama[0] == exts[0] && pama[1..] == PamaExtensions(exts[1..]);
    RatingsOfCons(pama, id);
  }

  /** The count over a non-empty prefix starts with its first extension. */
  lemma CountPrefixCons(exts: seq<Extension>, k: nat)
    requires 0 < k <= |exts|
    ensures PamaCodingCount(exts[..k])
         == (if IsPamaRating(exts[0]) && Readable(exts[0]) then |CodingsOf(exts[0])| else 0)
            + PamaCodingCount(exts[1..][..k - 1])
  {
    assert exts[..k][0] == exts[0];
    assert exts[..k][1..] == exts[1..][..k - 1];
  }

  /** The position of coding `j` of the `k`th extension among the ratings of `exts`. */
  ghost predicate RatingAt(exts: seq<Extension>, id: Option<string>, k: nat, j: nat)
    requires RatingsOf(PamaExtensions(exts), id).Ok?
    requires k < |exts| && Readable(exts[k]) && j < |CodingsOf(exts[k])|
  {
    var all := RatingsOf(PamaExtensions(exts), id).value;
    PamaCodingCount(exts[..k]) + j < |all|
    && all[PamaCodingCount(exts[..k]) + j] == ExtractedRating(CodingsOf(exts[k])[j].code, id)
  }

  /** A leading rating extension shifts every later position by its number of codings. */
  lemma RatingAtAfterPama(exts: seq<Extension>, id: Option<string>, k: nat, j: nat)
    requires 0 < k < |exts| && Readable(exts[k]) && j < |CodingsOf(exts[k])|
    requires RatingsOf(PamaExtensions(exts), id).Ok? && IsPamaRating(exts[0])
    requires RatingsOf(PamaExtensions(exts[1..]), id).Ok?
    requires assert exts[1..][k - 1] == exts[k]; RatingAt(exts[1..], id, k - 1, j)
    ensures RatingAt(exts, id, k, j)
  {
    var tail := exts[1..];
    PamaHead(exts, id);
    var head := RatingsOfCodings(CodingsOf(exts[0]), id);
    var rest := RatingsOf(PamaExtensions(tail), id).value;
    var n := PamaCodingCount(tail[..k - 1]) + j;
    assert PamaCodingCount(exts[..k]) + j == |head| + n by {
      CountPrefixCons(exts, k);
    }
    assert (head + rest)[|head| + n] == rest[n];
  }

  /** Any other leading extension shifts nothing. */
  lemma RatingAtAfterOther(exts: seq<Extension>, id: Option<string>, k: nat, j: nat)
    requires 0 < k < |exts| && Readable(exts[k]) && j < |CodingsOf(exts[k])|
    requires RatingsOf(PamaExtensions(exts), id).Ok? && !IsPamaRating(exts[0])
    requires RatingsOf(PamaExtensions(exts[1..]), id).Ok?
    requires assert exts[1..][k - 1] == exts[k]; RatingAt(exts[1..], id, k - 1, j)
    ensures RatingAt(exts, id, k, j)
  {
    assert PamaCodingCount(exts[..k]) == PamaCodingCount(exts[1..][..k - 1]) by {
      CountPrefixCons(exts, k);
    }
    assert PamaExtensions(exts) == PamaExtensions(exts[1..]);
  }

  /** A leading rating extension's codings come first. */
  lemma RatingAtHead(exts: seq<Extension>, id: Option<string>, j: nat)
    requires RatingsOf(PamaExtensions(exts), id).Ok? && exts != [] && IsPamaRating(exts[0])
    requires Readable(exts[0]) && j < |CodingsOf(exts[0])|
    ensures RatingAt(exts, id, 0, j)
  {
    assert PamaCodingCount(exts[..0]) == 0 by {
      assert exts[..0] == [];
    }
    PamaHead(exts, id);
    var head := RatingsOfCodings(CodingsOf(exts[0]), id);
    var rest := RatingsOf(PamaExtensions(exts[1..]), id).value;
    assert (head + rest)[j] == head[j];
  }

  /**
   * ... and the position: coding `j` of the `k`th extension comes after the ratings of the
   * rating extensions before it, so extension-then-coding order is kept.
   */
  lemma {:induction false} ExtractionAt(exts: seq<Extension>, id: Option<string>, k: nat, j: nat)
    requires RatingsOf(PamaExtensions(exts), id).Ok?
    requires k < |exts| && IsPamaRating(exts[k]) && Readable(exts[k]) && j < |CodingsOf(exts[k])|
    ensures RatingAt(exts, id, k, j)
  {
    if k == 0 {
      RatingAtHead(exts, id, j);
    } else {
      var tail := exts[1..];
      assert tail[k - 1] == exts[k];
      if IsPamaRating(exts[0]) {
        PamaHead(exts, id);
        ExtractionAt(tail, id, k - 1, j);
        RatingAtAfterPama(exts, id, k, j);
      } else {
        assert PamaExtensions(exts) == PamaExtensions(tail);
        ExtractionAt(tail, id, k - 1, j);
        RatingAtAfterOther(exts, id, k, j);
      }
    }
  }
}
