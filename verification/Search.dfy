/** Matching an incoming search term against the share index. */
module Search {
  import opened Bytes

  datatype Entry = Entry(virtualPath: string, size: u64, attributes: seq<(u32, u32)>)

  /** A file's id is its place in `files`; `wordIndex` lists the ids of the files with a word. */
  datatype ShareIndex = ShareIndex(files: seq<Entry>, wordIndex: map<string, seq<u32>>) {
    predicate InRange() {
      forall w, i :: w in wordIndex && 0 <= i < |wordIndex[w]| ==> wordIndex[w][i] < |files|
    }
  }

  datatype Terms = Terms(included: seq<string>, excluded: seq<string>, partial: seq<string>)

  /** The Unicode tables the standard library brings. */
  datatype Unicode = Unicode(isSpace: char -> bool, lower: string -> string)

  // ---- splitting a search term into words ----------------------------------------

  function RunLength(u: Unicode, s: string): (n: nat)
    ensures n <= |s|
    ensures s != [] && !u.isSpace(s[0]) ==> n > 0
  {
    if s == [] || u.isSpace(s[0]) then 0 else 1 + RunLength(u, s[1..])
  }

  /** The maximal runs without white space. */
  function Words(u: Unicode, s: string): seq<string>
    decreases |s|
  {
    if s == [] then []
    else if u.isSpace(s[0]) then Words(u, s[1..])
    else [s[..RunLength(u, s)]] + Words(u, s[RunLength(u, s)..])
  }

  predicate Marked(raw: string, mark: char) {
    raw != [] && raw[0] == mark
  }

  function IncludedPart(u: Unicode, raw: string): seq<string> {
    if raw == [] || Marked(raw, '-') || Marked(raw, '*') then [] else [u.lower(raw)]
  }

  function IncludedIn(u: Unicode, ws: seq<string>): seq<string> {
    if ws == [] then [] else IncludedPart(u, ws[0]) + IncludedIn(u, ws[1..])
  }

  /** The word behind a mark; a mark alone is dropped. */
  function MarkedPart(u: Unicode, mark: char, raw: string): seq<string> {
    if Marked(raw, mark) && raw[1..] != [] then [u.lower(raw[1..])] else []
  }

  function MarkedIn(u: Unicode, mark: char, ws: seq<string>): seq<string> {
    if ws == [] then [] else MarkedPart(u, mark, ws[0]) + MarkedIn(u, mark, ws[1..])
  }

  function Classified(u: Unicode, ws: seq<string>): Terms {
    Terms(IncludedIn(u, ws), MarkedIn(u, '-', ws), MarkedIn(u, '*', ws))
  }

  function TermsOf(u: Unicode, term: string): Terms {
    Classified(u, Words(u, term))
  }

  function Joined(a: Terms, b: Terms): Terms {
    Terms(a.included + b.included, a.excluded + b.excluded, a.partial + b.partial)
  }

  lemma JoinedAssoc(a: Terms, b: Terms, c: Terms)
    ensures Joined(Joined(a, b), c) == Joined(a, Joined(b, c))
  {
    assert a.included + b.included + c.included == a.included + (b.included + c.included);
    assert a.excluded + b.excluded + c.excluded == a.excluded + (b.excluded + c.excluded);
    assert a.partial + b.partial + c.partial == a.partial + (b.partial + c.partial);
  }

  /** What one word adds to the terms. */
  function PartOf(u: Unicode, raw: string): Terms {
    Terms(IncludedPart(u, raw), MarkedPart(u, '-', raw), MarkedPart(u, '*', raw))
  }

  method ClassifyWord(u: Unicode, raw: string, terms: Terms) returns (r: Terms)
    ensures r == Joined(terms, PartOf(u, raw))
  {
    r := terms;
    if Marked(raw, '-') {
      if raw[1..] != [] {
        r := r.(excluded := r.excluded + [u.lower(raw[1..])]);
      }
    } else if Marked(raw, '*') {
      if raw[1..] != [] {
        r := r.(partial := r.partial + [u.lower(raw[1..])]);
      }
    } else if raw != [] {
      r := r.(included := r.included + [u.lower(raw)]);
    }
  }

  method SanitizeSearchTerm(u: Unicode, term: string) returns (terms: Terms)
    ensures terms == TermsOf(u, term)
  {
    hide Words, Classified, PartOf, Joined;
    terms := Terms([], [], []);
    var words := Words(u, term);
    JoinedEnds(u, Classified(u, words));
    var i := 0;
    assert words[0..] == words;
    while i < |words|
      invariant 0 <= i <= |words|
      invariant Joined(terms, Classified(u, words[i..])) == TermsOf(u, term)
    {
      ghost var before := terms;
      terms := ClassifyWord(u, words[i], terms);
      ClassifiedStep(u, words, i);
      JoinedAssoc(before, PartOf(u, words[i]), Classified(u, words[i + 1..]));
      i := i + 1;
    }
    assert words[i..] == [];
    JoinedEnds(u, terms);
  }

  lemma JoinedEnds(u: Unicode, t: Terms)
    ensures Joined(Terms([], [], []), t) == t == Joined(t, Classified(u, []))
  {
  }

  lemma ClassifiedOne(u: Unicode, raw: string)
    ensures Classified(u, [raw]) == PartOf(u, raw)
  {
    hide IncludedPart, MarkedPart;
    var none: seq<string> := [];
    assert [raw][1..] == none;
    assert IncludedIn(u, none) == MarkedIn(u, '-', none) == MarkedIn(u, '*', none) == [];
  }

  lemma ClassifiedStep(u: Unicode, ws: seq<string>, i: nat)
    requires i < |ws|
    ensures Classified(u, ws[i..]) == Joined(PartOf(u, ws[i]), Classified(u, ws[i + 1..]))
  {
    hide Classified, PartOf, Joined;
    ClassifiedOne(u, ws[i]);
    assert ws[i..] == [ws[i]] + ws[i + 1..];
    ClassifiedJoins(u, [ws[i]], ws[i + 1..]);
  }

  lemma {:induction false} IncludedJoins(u: Unicode, a: seq<string>, b: seq<string>)
    ensures IncludedIn(u, a + b) == IncludedIn(u, a) + IncludedIn(u, b)
  {
    hide IncludedPart;
    if a == [] {
      assert a + b == b;
    } else {
      IncludedJoins(u, a[1..], b);
      assert (a + b)[1..] == a[1..] + b;
    }
  }

  lemma {:induction false} MarkedJoins(u: Unicode, mark: char, a: seq<string>, b: seq<string>)
    ensures MarkedIn(u, mark, a + b) == MarkedIn(u, mark, a) + MarkedIn(u, mark, b)
  {
    hide MarkedPart;
    if a == [] {
      assert a + b == b;
    } else {
      MarkedJoins(u, mark, a[1..], b);
      assert (a + b)[1..] == a[1..] + b;
    }
  }

  lemma ClassifiedJoins(u: Unicode, a: seq<string>, b: seq<string>)
    ensures Classified(u, a + b) == Joined(Classified(u, a), Classified(u, b))
  {
    IncludedJoins(u, a, b);
    MarkedJoins(u, '-', a, b);
    MarkedJoins(u, '*', a, b);
  }

  lemma {:induction false} RunStops(u: Unicode, a: string, c: char, b: string)
    requires u.isSpace(c)
    ensures RunLength(u, a + [c] + b) == RunLength(u, a)
  {
    if a != [] && !u.isSpace(a[0]) {
      assert (a + [c] + b)[1..] == a[1..] + [c] + b;
      RunStops(u, a[1..], c, b);
    }
  }

  lemma {:induction false} WordsSplit(u: Unicode, a: string, c: char, b: string)
    requires u.isSpace(c)
    ensures Words(u, a + [c] + b) == Words(u, a) + Words(u, b)
    decreases |a|
  {
    var s := a + [c] + b;
    if a == [] {
      assert s[1..] == b;
    } else if u.isSpace(a[0]) {
      assert s[1..] == a[1..] + [c] + b;
      WordsSplit(u, a[1..], c, b);
    } else {
      RunStops(u, a, c, b);
      var n := RunLength(u, a);
      assert s[..n] == a[..n] && s[n..] == a[n..] + [c] + b;
      WordsSplit(u, a[n..], c, b);
    }
  }

  lemma {:induction false} RunWhole(u: Unicode, w: string)
    requires forall i :: 0 <= i < |w| ==> !u.isSpace(w[i])
    ensures RunLength(u, w) == |w|
  {
    if w != [] {
      RunWhole(u, w[1..]);
    }
  }

  /**
   White space separates, and each word is classified by its first character alone.
   Applied repeatedly, the two determine what any search term is split into.
   */
  lemma TermsAreSplitAtSpaces(u: Unicode, a: string, c: char, b: string, w: string)
    requires u.isSpace(c)
    requires w != [] && forall i :: 0 <= i < |w| ==> !u.isSpace(w[i])
    ensures TermsOf(u, a + [c] + b) == Joined(TermsOf(u, a), TermsOf(u, b))
    ensures TermsOf(u, []) == Terms([], [], [])
    ensures w[0] == '-' ==> TermsOf(u, w) == Terms([], if |w| > 1 then [u.lower(w[1..])] else [], [])
    ensures w[0] == '*' ==> TermsOf(u, w) == Terms([], [], if |w| > 1 then [u.lower(w[1..])] else [])
    ensures w[0] != '-' && w[0] != '*' ==> TermsOf(u, w) == Terms([u.lower(w)], [], [])
  {
    WordsSplit(u, a, c, b);
    ClassifiedJoins(u, Words(u, a), Words(u, b));
    RunWhole(u, w);
    assert Words(u, w) == [w] + Words(u, []) == [w] by {
      assert w[..|w|] == w && w[|w|..] == [];
    }
    ClassifiedOne(u, w);
  }

  // ---- evaluating the query --------------------------------------------------------

  predicate EndsWith(word: string, suffix: string) {
    |suffix| <= |word| && word[|word| - |suffix|..] == suffix
  }

  lemma EndsWithMeans(word: string, suffix: string)
    ensures EndsWith(word, suffix) <==> exists front :: word == front + suffix
  {
    if EndsWith(word, suffix) {
      assert word == word[..|word| - |suffix|] + suffix;
    }
    if front :| word == front + suffix {
      assert word[|front|..] == suffix;
    }
  }

  /** `id` is listed under a word, of those in `words`, that ends with `p`. */
  predicate ListedUnder(index: map<string, seq<u32>>, words: set<string>, p: string, id: u32) {
    exists w :: w in words && w in index && EndsWith(w, p) && id in index[w]
  }

  predicate HasWord(index: map<string, seq<u32>>, w: string, id: u32) {
    w in index && id in index[w]
  }

  predicate HasAll(index: map<string, seq<u32>>, ws: seq<string>, id: u32) {
    forall i :: 0 <= i < |ws| ==> HasWord(index, ws[i], id)
  }

  predicate HasNone(index: map<string, seq<u32>>, ws: seq<string>, id: u32) {
    forall i :: 0 <= i < |ws| ==> !HasWord(index, ws[i], id)
  }

  predicate EndsAll(index: map<string, seq<u32>>, ps: seq<string>, id: u32) {
    forall i :: 0 <= i < |ps| ==> ListedUnder(index, index.Keys, ps[i], id)
  }

  /** What a query means: in every included word's list, in none of an excluded word's, in one for each suffix. */
  predicate Matches(terms: Terms, index: map<string, seq<u32>>, id: u32) {
    && HasAll(index, terms.included, id)
    && EndsAll(index, terms.partial, id)
    && HasNone(index, terms.excluded, id)
  }

  predicate LoneWord(terms: Terms) {
    |terms.included| == 1 && terms.partial == [] && terms.excluded == []
  }

  function Elems(s: seq<u32>): (r: set<u32>)
    ensures forall x :: x in r <==> x in s
  {
    set x | x in s
  }

  function FirstOf<T>(s: seq<T>, n: nat): (r: seq<T>)
    ensures r <= s && |r| <= n && (|r| < n ==> r == s)
  {
    if |s| <= n then s else s[..n]
  }

  /** Keeps the ids that are listed under every word; stops as soon as none is left. */
  method Intersect(words: seq<string>, index: map<string, seq<u32>>, start: set<u32>) returns (r: set<u32>)
    requires start != {}
    ensures forall id :: id in r <==> id in start && HasAll(index, words, id)
  {
    r := start;
    var i := 0;
    while i < |words|
      invariant 0 <= i <= |words|
      invariant r != {}
      invariant forall id :: id in r <==> id in start && HasAll(index, words[..i], id)
    {
      assert words[..i + 1] == words[..i] + [words[i]];
      if words[i] !in index {
        assert forall id :: !HasWord(index, words[i], id);
        return {};
      }
      var ids := Elems(index[words[i]]);
      r := set id | id in r && id in ids;
      assert forall id :: id in r <==> id in start && HasAll(index, words[..i + 1], id);
      if r == {} {
        assert forall id :: HasAll(index, words, id) ==> HasAll(index, words[..i + 1], id);
        return;
      }
      i := i + 1;
    }
    assert words[..i] == words;
  }

  /** A suffix's bucket after a word has been looked at. */
  function Extended(bucket: set<u32>, word: string, ids: seq<u32>, p: string, results: set<u32>): (r: set<u32>)
    ensures forall id :: id in r <==> id in bucket || (EndsWith(word, p) && id in ids && id in results)
  {
    if EndsWith(word, p) then bucket + Elems(ids) * results else bucket
  }

  method AddToBuckets(word: string, ids: seq<u32>, partial: seq<string>, results: set<u32>, before: seq<set<u32>>)
    returns (matched: seq<set<u32>>)
    requires |before| == |partial|
    ensures |matched| == |partial|
    ensures forall k :: 0 <= k < |partial| ==> matched[k] == Extended(before[k], word, ids, partial[k], results)
  {
    matched := before;
    var k := 0;
    while k < |partial|
      invariant 0 <= k <= |partial| == |matched|
      invariant forall j :: k <= j < |partial| ==> matched[j] == before[j]
      invariant forall j :: 0 <= j < k ==> matched[j] == Extended(before[j], word, ids, partial[j], results)
    {
      if EndsWith(word, partial[k]) {
        matched := matched[k := matched[k] + Elems(ids) * results];
      }
      k := k + 1;
    }
  }

  /** The ids of `results` listed under a word, of those seen, that ends with each suffix. */
  predicate Bucketed(
    index: map<string, seq<u32>>, seen: set<string>, partial: seq<string>, results: set<u32>, matched: seq<set<u32>>) {
    && |matched| == |partial|
    && forall k, id :: 0 <= k < |partial| ==>
      (id in matched[k] <==> id in results && ListedUnder(index, seen, partial[k], id))
  }

  /** One pass over the vocabulary, in any order. */
  method FillBuckets(partial: seq<string>, index: map<string, seq<u32>>, results: set<u32>)
    returns (matched: seq<set<u32>>)
    ensures Bucketed(index, index.Keys, partial, results, matched)
  {
    hide EndsWith, ListedUnder, Extended;
    matched := seq(|partial|, _ => {});
    var todo := index.Keys;
    assert Bucketed(index, index.Keys - todo, partial, results, matched) by {
      NothingListed(index, index.Keys - todo);
    }
    while todo != {}
      invariant todo <= index.Keys
      invariant Bucketed(index, index.Keys - todo, partial, results, matched)
    {
      var word :| word in todo;
      ghost var seen := index.Keys - todo;
      ghost var before := matched;
      matched := AddToBuckets(word, index[word], partial, results, matched);
      todo := todo - {word};
      forall k, id | 0 <= k < |partial|
        ensures id in matched[k] <==> id in results && ListedUnder(index, index.Keys - todo, partial[k], id)
      {
        assert seen + {word} == index.Keys - todo;
        OneMoreWord(index, seen, word, partial[k], id);
        assert matched[k] == Extended(before[k], word, index[word], partial[k], results);
        assert id in before[k] <==> id in results && ListedUnder(index, seen, partial[k], id);
      }
    }
    assert index.Keys - todo == index.Keys;
  }

  lemma NothingListed(index: map<string, seq<u32>>, none: set<string>)
    requires none == {}
    ensures forall p, id :: !ListedUnder(index, none, p, id)
  {
  }

  lemma OneMoreWord(index: map<string, seq<u32>>, seen: set<string>, word: string, p: string, id: u32)
    requires word in index
    ensures ListedUnder(index, seen + {word}, p, id) <==>
      ListedUnder(index, seen, p, id) || (EndsWith(word, p) && id in index[word])
  {
    hide EndsWith;
  }

  /** Keeps the ids that are listed, for every suffix, under a word with that suffix. */
  method KeepPartial(partial: seq<string>, index: map<string, seq<u32>>, start: set<u32>) returns (r: set<u32>)
    requires start != {}
    ensures forall id :: id in r <==> id in start && EndsAll(index, partial, id)
  {
    hide ListedUnder;
    r := start;
    var matched := FillBuckets(partial, index, r);
    var k := 0;
    while k < |partial|
      invariant 0 <= k <= |partial|
      invariant forall id :: id in r <==> id in start && EndsAll(index, partial[..k], id)
    {
      assert partial[..k + 1] == partial[..k] + [partial[k]];
      if matched[k] == {} {
        assert forall id :: id in start ==> !ListedUnder(index, index.Keys, partial[k], id);
        return {};
      }
      r := set id | id in r && id in matched[k];
      k := k + 1;
      assert forall id :: id in r <==> id in start && EndsAll(index, partial[..k], id);
      if r == {} {
        assert forall id :: EndsAll(index, partial, id) ==> EndsAll(index, partial[..k], id);
        return;
      }
    }
    assert partial[..k] == partial;
  }

  /** Drops the ids that are listed under an excluded word. */
  method Exclude(excluded: seq<string>, index: map<string, seq<u32>>, start: set<u32>) returns (r: set<u32>)
    ensures forall id :: id in r <==> id in start && HasNone(index, excluded, id)
  {
    r := start;
    var i := 0;
    while i < |excluded|
      invariant 0 <= i <= |excluded|
      invariant forall id :: id in r <==> id in start && HasNone(index, excluded[..i], id)
    {
      assert excluded[..i + 1] == excluded[..i] + [excluded[i]];
      if excluded[i] in index {
        var ids := index[excluded[i]];
        ghost var before := r;
        var j := 0;
        while j < |ids|
          invariant 0 <= j <= |ids|
          invariant forall id :: id in r <==> id in before && id !in ids[..j]
        {
          r := r - {ids[j]};
          j := j + 1;
        }
        assert ids[..j] == ids;
        assert forall id :: id in r <==> id in start && HasNone(index, excluded[..i + 1], id);
        if r == {} {
          assert forall id :: HasNone(index, excluded, id) ==> HasNone(index, excluded[..i + 1], id);
          return;
        }
      }
      i := i + 1;
    }
    assert excluded[..i] == excluded;
  }

  /**
   The result is the set of all ids that match, or nothing when there are none or no
   word is included, in whatever order the index is gone through. A lone included
   word gives the ids at the front of its list instead.
   */
  method CreateSearchResultList(terms: Terms, maxResults: nat, index: map<string, seq<u32>>)
    returns (r: Option<set<u32>>)
    ensures
      if |terms.included| == 1 && terms.partial == [] && terms.excluded == [] then
        var w := terms.included[0];
        r == if w !in index || FirstOf(index[w], maxResults) == [] then None
             else Some(Elems(FirstOf(index[w], maxResults)))
      else
        && (r.None? <==> terms.included == [] || forall id :: !Matches(terms, index, id))
        && (r.Some? ==> forall id :: id in r.value <==> Matches(terms, index, id))
    ensures r.Some? ==> r.value != {}
  {
    if |terms.included| == 0 {
      return None;
    }
    var first := terms.included[0];
    if first !in index {
      assert forall id :: !HasWord(index, terms.included[0], id);
      return None;
    }
    var results := if LoneWord(terms) then Elems(FirstOf(index[first], maxResults)) else Elems(index[first]);
    ghost var front := FirstOf(index[first], maxResults);
    assert front != [] ==> front[0] in Elems(front);
    if results == {} {
      return None;
    }
    ghost var start := results;
    results := Intersect(terms.included[1..], index, results);
    forall id
      ensures HasAll(index, terms.included, id) <==> id in index[first] && HasAll(index, terms.included[1..], id)
    {
      FirstAndRest(index, terms.included, id);
    }
    if results == {} {
      assert LoneWord(terms) ==> results == start;
      return None;
    }
    if terms.partial != [] {
      results := KeepPartial(terms.partial, index, results);
      if results == {} {
        return None;
      }
    }
    results := Exclude(terms.excluded, index, results);
    assert LoneWord(terms) ==> results == start;
    if results == {} {
      return None;
    }
    ghost var some :| some in results;
    assert !LoneWord(terms) ==> Matches(terms, index, some);
    r := Some(results);
  }

  lemma FirstAndRest(index: map<string, seq<u32>>, ws: seq<string>, id: u32)
    requires ws != []
    ensures HasAll(index, ws, id) <==> HasWord(index, ws[0], id) && HasAll(index, ws[1..], id)
  {
    if HasWord(index, ws[0], id) && HasAll(index, ws[1..], id) {
      forall i | 0 <= i < |ws| ensures HasWord(index, ws[i], id) {
        assert i > 0 ==> HasWord(index, ws[1..][i - 1], id);
      }
    }
    if HasAll(index, ws, id) {
      forall i | 0 <= i < |ws[1..]| ensures HasWord(index, ws[1..][i], id) {
        assert HasWord(index, ws[i + 1], id);
      }
    }
  }
}
