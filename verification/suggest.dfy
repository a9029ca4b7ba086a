/** `getRegNumberSuggestions`: the autocomplete list for the registration
    number and lookup fields. The keys of the patient rollup are filtered,
    in their order, by whether the upper-cased key or its last four
    characters contain the search, and the first ten are kept. */
module Suggest {
  import opened Text
  import opened Records
  import opened Rollups

  /** At most this many suggestions are shown. */
  const Limit := 10

  /** The filter callback: the upper-cased key, or its last four characters,
      contains the search. */
  predicate Matches(regNum: string, search: string) {
    Contains(Upper(regNum), search) || Contains(Last4(regNum), search)
  }

  /** `a` lists some of the elements of `b`, in the same order. */
  predicate IsSubsequence(a: seq<string>, b: seq<string>)
    decreases |b|
  {
    a == [] || (b != [] && ((a[0] == b[0] && IsSubsequence(a[1..], b[1..])) || IsSubsequence(a, b[1..])))
  }

  /** `allRegNumbers.filter(...)`: the matching keys, in key order. */
  function Matching(keys: seq<string>, search: string): (r: seq<string>)
    ensures |r| <= |keys|
    ensures forall x :: x in r <==> x in keys && Matches(x, search)
    ensures IsSubsequence(r, keys)
  {
    if keys == [] then []
    else
      var rest := Matching(keys[1..], search);
      if Matches(keys[0], search) then [keys[0]] + rest
      else
        SubsequenceOfTail(rest, keys);
        rest
  }

  /** `getRegNumberSuggestions(searchTerm)` over the keys `keys`: an empty
      search gives nothing; otherwise the search is upper-cased and trimmed
      and the first ten matching keys are returned. */
  function Suggestions(searchTerm: string, keys: seq<string>): (r: seq<string>)
    ensures searchTerm == [] ==> r == []
    ensures |r| <= Limit
    ensures forall x | x in r :: x in keys && Matches(x, Trim(Upper(searchTerm)))
    ensures IsSubsequence(r, keys)
    ensures searchTerm != [] ==>
      var all := Matching(keys, Trim(Upper(searchTerm)));
      |r| == Min(|all|, Limit) && r == all[..|r|]
  {
    if searchTerm == [] then []
    else
      var search := Trim(Upper(searchTerm));
      var all := Matching(keys, search);
      var r := all[..Min(|all|, Limit)];
      PrefixIsSubsequence(r, all, keys);
      r
  }

  // ---------------------------------------------------------------------------
  // Lemmas

  lemma {:induction false} SubsequenceOfTail(a: seq<string>, b: seq<string>)
    requires b != []
    requires IsSubsequence(a, b[1..])
    ensures IsSubsequence(a, b)
  {
  }

  /** A prefix of a subsequence of `c` is a subsequence of `c`. */
  lemma {:induction false} PrefixIsSubsequence(a: seq<string>, b: seq<string>, c: seq<string>)
    requires IsSubsequence(b, c)
    requires |a| <= |b| && a == b[..|a|]
    ensures IsSubsequence(a, c)
    decreases |c|
  {
    if a != [] {
      assert b != [] && c != [];
      if b[0] == c[0] && IsSubsequence(b[1..], c[1..]) {
        assert a[1..] == b[1..][..|a| - 1];
        PrefixIsSubsequence(a[1..], b[1..], c[1..]);
      } else {
        PrefixIsSubsequence(a, b, c[1..]);
      }
    }
  }

  /** Fewer than ten suggestions means every matching key is suggested. */
  lemma SuggestionsComplete(searchTerm: string, keys: seq<string>, x: string)
    requires searchTerm != []
    requires |Suggestions(searchTerm, keys)| < Limit
    requires x in keys && Matches(x, Trim(Upper(searchTerm)))
    ensures x in Suggestions(searchTerm, keys)
  {
  }

  /** A search of white space only is not empty, so it is not refused: it
      trims to the empty string, which every key contains, and the first
      ten keys are suggested. */
  lemma BlankSearchListsFirstKeys(searchTerm: string, keys: seq<string>)
    requires searchTerm != [] && NoneButSpace(searchTerm)
    ensures Suggestions(searchTerm, keys) == keys[..Min(|keys|, Limit)]
  {
    var search := Trim(Upper(searchTerm));
    forall i | 0 <= i < |searchTerm|
      ensures IsSpace(Upper(searchTerm)[i])
    {
      UpperKeepsSpace(searchTerm[i]);
    }
    BlankTrimsToEmpty(Upper(searchTerm));
    assert search == [];
    MatchingAll(keys, search);
  }

  predicate NoneButSpace(s: string) {
    forall i | 0 <= i < |s| :: IsSpace(s[i])
  }

  lemma BlankTrimsToEmpty(s: string)
    requires NoneButSpace(s)
    ensures Trim(s) == []
  {
    TrimSpec(s);
  }

  lemma {:induction false} MatchingAll(keys: seq<string>, search: string)
    requires search == []
    ensures Matching(keys, search) == keys
    decreases |keys|
  {
    if keys != [] {
      ContainsEmpty(Upper(keys[0]));
      MatchingAll(keys[1..], search);
    }
  }

  /** For a canonical key (as every rollup key is), the last-four test adds
      nothing: the key matches exactly when it contains the search. */
  lemma CanonicalKeyMatches(regNum: string, search: string)
    requires Canon(regNum) == regNum
    ensures Matches(regNum, search) <==> Contains(regNum, search)
  {
    assert Upper(regNum) == regNum by {
      UpperIdempotent(Trim(regNum));
    }
    var tail := Last4(regNum);
    var k := |regNum| - |tail|;
    assert tail == regNum[k..];
    if Contains(tail, search) {
      ContainsInSuffix(regNum, k, search);
    }
  }

  /** Every key of the patient rollup is canonical. */
  lemma RollupKeysCanonical(vs: seq<Visit>, k: string)
    requires k in PatientTabletData(vs).order
    ensures Canon(k) == k
  {
    PatientTabletDataKeys(vs);
    var w :| w in vs && Key(w) == k;
    CanonIdempotent(w.regNumber);
  }

  /** Typing a patient's whole number (in any case, with surrounding white
      space) suggests that patient's key when fewer than ten keys match. */
  lemma WholeNumberFound(searchTerm: string, keys: seq<string>)
    requires searchTerm != []
    requires Canon(searchTerm) in keys
    requires |Suggestions(searchTerm, keys)| < Limit
    ensures Canon(searchTerm) in Suggestions(searchTerm, keys)
  {
    var k := Canon(searchTerm);
    CanonIdempotent(searchTerm);
    TrimUpperCommute(searchTerm);
    assert Trim(Upper(searchTerm)) == k;
    CanonicalKeyMatches(k, k);
    assert IsPrefix(k, k);
    SuggestionsComplete(searchTerm, keys, k);
  }
}
