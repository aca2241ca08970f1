/**
 * `searchCodings` and `onSearchCore` around the full-text index: the code-to-coding
 * lookup, materialising the index's result refs, and shaping results into select options.
 */
module CodeSearch {
  import opened Fhir

  /** The hard ceiling on options returned for one query. */
  const MaxResults: nat := 50

  /** The codes present in a terminology list. */
  ghost function Codes(codings: seq<Coding>): set<string> {
    set c | c in codings :: c.code
  }

  /** No later coding in the list has the same code as `codings[i]`. */
  ghost predicate LastWithCode(codings: seq<Coding>, i: int)
    requires 0 <= i < |codings|
  {
    forall j :: i < j < |codings| ==> codings[j].code != codings[i].code
  }

  /** `m` is a code-to-coding lookup for `codings` in which the last coding with each code wins. */
  ghost predicate LastWins(codings: seq<Coding>, m: map<string, Coding>) {
    && m.Keys == Codes(codings)
    && (forall k :: k in m ==> m[k] in codings && m[k].code == k)
    && (forall i :: 0 <= i < |codings| && LastWithCode(codings, i) ==> m[codings[i].code] == codings[i])
  }

  /** Storing one more entry keeps the lookup last-wins. */
  lemma LastWinsStep(init: seq<Coding>, last: Coding, m: map<string, Coding>)
    requires LastWins(init, m)
    ensures LastWins(init + [last], m[last.code := last])
  {
    var codings := init + [last];
    var m' := m[last.code := last];
    assert forall c :: c in codings <==> c in init || c == last;
    assert m'.Keys == Codes(codings);
    forall i | 0 <= i < |codings| && LastWithCode(codings, i)
      ensures m'[codings[i].code] == codings[i]
    {
      if i < |init| {
        assert codings[|init|] == last;
        assert last.code != init[i].code;
        assert forall j :: 0 <= j < |init| ==> codings[j] == init[j];
        assert LastWithCode(init, i);
      }
    }
  }

  /**
   * `Object.fromEntries(codings.map(c => [c.code, c]))`: entries are stored in list order,
   * so on a duplicate code the last coding wins.
   */
  function ByCode(codings: seq<Coding>): (m: map<string, Coding>)
    ensures m.Keys == Codes(codings)
    ensures forall k :: k in m ==> m[k] in codings && m[k].code == k
    ensures forall i :: 0 <= i < |codings| && LastWithCode(codings, i) ==> m[codings[i].code] == codings[i]
  {
    if codings == [] then map[]
    else
      var init := codings[..|codings| - 1];
      var last := codings[|codings| - 1];
      var m := ByCode(init);
      LastWinsStep(init, last, m);
      assert init + [last] == codings;
      m[last.code := last]
  }

  /** Every code of the list has a last coding carrying it. */
  lemma {:induction false} HasLastWithCode(codings: seq<Coding>, k: string)
    requires k in Codes(codings)
    ensures exists j :: 0 <= j < |codings| && codings[j].code == k && LastWithCode(codings, j)
  {
    var n := |codings| - 1;
    if codings[n].code != k {
      var init := codings[..n];
      assert forall c :: c in codings ==> c in init || c == codings[n];
      assert k in Codes(init);
      HasLastWithCode(init, k);
      var j :| 0 <= j < |init| && init[j].code == k && LastWithCode(init, j);
      assert codings[j] == init[j];
      assert LastWithCode(codings, j);
    }
  }

  /** `idx.search(q).map(r => ({...byCode[r.ref]}))`, given the refs the index returned. */
  function Materialise(byCode: map<string, Coding>, refs: seq<string>): (r: seq<Coding>)
    requires forall ref :: ref in refs ==> ref in byCode
    ensures |r| == |refs|
    ensures forall i :: 0 <= i < |r| ==> r[i] == byCode[refs[i]]
  {
    seq(|refs|, i requires 0 <= i < |refs| => byCode[refs[i]])
  }

  /**
   * The search function `searchCodings(codings)` returns, applied to the refs its index
   * produced for a query. The index's refs are the `code` fields of the codings it was built
   * from, which is what the requires states.
   */
  function SearchResults(codings: seq<Coding>, refs: seq<string>): (r: seq<Coding>)
    requires forall ref :: ref in refs ==> ref in Codes(codings)
    ensures |r| == |refs|
    ensures forall i :: 0 <= i < |r| ==> r[i] in codings && r[i].code == refs[i]
    ensures forall i :: 0 <= i < |r| ==>
              exists j :: 0 <= j < |codings| && r[i] == codings[j] && LastWithCode(codings, j)
  {
    var m := ByCode(codings);
    assert forall i :: 0 <= i < |refs| ==>
             exists j :: 0 <= j < |codings| && m[refs[i]] == codings[j] && LastWithCode(codings, j) by {
      forall i | 0 <= i < |refs|
        ensures exists j :: 0 <= j < |codings| && m[refs[i]] == codings[j] && LastWithCode(codings, j)
      {
        HasLastWithCode(codings, refs[i]);
      }
    }
    Materialise(m, refs)
  }

  /** `{label, value, data}`; `label` is a Dafny keyword, hence `labelText`. */
  datatype SelectOption = SelectOption(labelText: string, value: string, data: Coding)

  /** An option shows its coding's display and selects its coding's code. */
  predicate Consistent(o: SelectOption) {
    o.labelText == o.data.display && o.value == o.data.code
  }

  /** `toSelectOption(coding)` */
  function ToSelectOption(c: Coding): (o: SelectOption)
    ensures Consistent(o) && o.data == c
  {
    SelectOption(c.display, c.code, c)
  }

  /** `onSearchCore(query, haystack)` without the Promise: at most 50 options, in match order. */
  function OnSearchCore(query: string, haystack: string -> seq<Coding>): (r: seq<SelectOption>)
    ensures var matches := haystack(query);
            && |r| == (if |matches| < MaxResults then |matches| else MaxResults)
            && forall i :: 0 <= i < |r| ==> Consistent(r[i]) && r[i].data == matches[i]
  {
    var matches := haystack(query);
    var top := matches[..if |matches| < MaxResults then |matches| else MaxResults];
    seq(|top|, i requires 0 <= i < |top| => ToSelectOption(top[i]))
  }

  /** The codings behind a list of options. */
  function DataOf(options: seq<SelectOption>): (r: seq<Coding>) {
    seq(|options|, i requires 0 <= i < |options| => options[i].data)
  }

  /** The options are exactly the leading matches, rewrapped: their codings give back a prefix of the matches. */
  lemma OnSearchCoreRecoversMatches(query: string, haystack: string -> seq<Coding>)
    ensures DataOf(OnSearchCore(query, haystack)) <= haystack(query)
    ensures |haystack(query)| <= MaxResults ==> DataOf(OnSearchCore(query, haystack)) == haystack(query)
  {
  }
}
