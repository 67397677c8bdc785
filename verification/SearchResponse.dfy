/** Turning matched ids into the files of a search response: rank by path, cap, then drop excluded phrases. */
module SearchResponse {
  import opened Bytes
  import opened ShareTree
  import opened Search
  import Utf8

  // ---- the order of paths ----------------------------------------------------------

  /** Strings compare by their UTF-8 bytes. */
  predicate LexLe(a: seq<byte>, b: seq<byte>) {
    a == [] || (b != [] && (a[0] < b[0] || (a[0] == b[0] && LexLe(a[1..], b[1..]))))
  }

  lemma {:induction false} LexTotal(a: seq<byte>, b: seq<byte>)
    ensures LexLe(a, b) || LexLe(b, a)
  {
    if a != [] && b != [] && a[0] == b[0] {
      LexTotal(a[1..], b[1..]);
    }
  }

  lemma {:induction false} LexTransitive(a: seq<byte>, b: seq<byte>, c: seq<byte>)
    requires LexLe(a, b) && LexLe(b, c)
    ensures LexLe(a, c)
  {
    if a != [] && a[0] == b[0] == c[0] {
      LexTransitive(a[1..], b[1..], c[1..]);
    }
  }

  lemma {:induction false} LexAntisymmetric(a: seq<byte>, b: seq<byte>)
    requires LexLe(a, b) && LexLe(b, a)
    ensures a == b
  {
    if a != [] {
      LexAntisymmetric(a[1..], b[1..]);
      assert a == [a[0]] + a[1..] && b == [b[0]] + b[1..];
    }
  }

  /** The first byte that differs decides, the smaller first; a shorter string comes before its extensions. */
  lemma {:induction false} FirstDifferenceDecides(a: seq<byte>, b: seq<byte>, k: nat)
    requires k <= |a| && k <= |b| && a[..k] == b[..k]
    ensures k == |a| ==> LexLe(a, b)
    ensures k == |b| < |a| ==> !LexLe(a, b)
    ensures k < |a| && k < |b| && a[k] != b[k] ==> (LexLe(a, b) <==> a[k] < b[k])
  {
    if k > 0 {
      assert a[0] == a[..k][0] == b[..k][0] == b[0];
      assert a[1..][..k - 1] == a[..k][1..] == b[..k][1..] == b[1..][..k - 1];
      FirstDifferenceDecides(a[1..], b[1..], k - 1);
    }
  }

  function Path(files: seq<Entry>, id: u32): string {
    if id < |files| then files[id].virtualPath else []
  }

  predicate Le(files: seq<Entry>, a: u32, b: u32) {
    LexLe(Utf8.Encode(Path(files, a)), Utf8.Encode(Path(files, b)))
  }

  lemma LeTotal(files: seq<Entry>, a: u32, b: u32)
    ensures Le(files, a, b) || Le(files, b, a)
  {
    LexTotal(Utf8.Encode(Path(files, a)), Utf8.Encode(Path(files, b)));
  }

  lemma LeTransitive(files: seq<Entry>, a: u32, b: u32, c: u32)
    requires Le(files, a, b) && Le(files, b, c)
    ensures Le(files, a, c)
  {
    LexTransitive(Utf8.Encode(Path(files, a)), Utf8.Encode(Path(files, b)), Utf8.Encode(Path(files, c)));
  }

  lemma LeAntisymmetric(files: seq<Entry>, a: u32, b: u32)
    requires Le(files, a, b) && Le(files, b, a)
    ensures Path(files, a) == Path(files, b)
  {
    LexAntisymmetric(Utf8.Encode(Path(files, a)), Utf8.Encode(Path(files, b)));
    Utf8.EncodeInjective(Path(files, a), Path(files, b));
  }

  predicate Sorted(files: seq<Entry>, ids: seq<u32>) {
    forall i, j :: 0 <= i < j < |ids| ==> Le(files, ids[i], ids[j])
  }

  predicate NoDup(ids: seq<u32>) {
    forall i, j :: 0 <= i < j < |ids| ==> ids[i] != ids[j]
  }

  ghost predicate Distinct(files: seq<Entry>, s: set<u32>) {
    forall a, b :: a in s && b in s && Path(files, a) == Path(files, b) ==> a == b
  }

  // ---- the reference: sort everything ------------------------------------------------

  ghost predicate IsSmallest(files: seq<Entry>, s: set<u32>, m: u32) {
    m in s && forall x :: x in s ==> Le(files, m, x)
  }

  lemma SmallestOfMore(files: seq<Entry>, s: set<u32>, m: u32, a: u32)
    requires IsSmallest(files, s, m)
    ensures IsSmallest(files, s + {a}, if Le(files, a, m) then a else m)
  {
    hide Le;
    LeTotal(files, a, m);
    LeTotal(files, a, a);
    if Le(files, a, m) {
      forall x | x in s ensures Le(files, a, x) {
        LeTransitive(files, a, m, x);
      }
    }
  }

  lemma {:induction false} SmallestExists(files: seq<Entry>, s: set<u32>)
    requires s != {}
    ensures exists m :: IsSmallest(files, s, m)
  {
    hide IsSmallest, Le;
    var a :| a in s;
    var t := s - {a};
    if t == {} {
      OnlyIsSmallest(files, a);
      assert s == {a};
    } else {
      SmallestExists(files, t);
      var m :| IsSmallest(files, t, m);
      SmallestOfMore(files, t, m, a);
      assert t + {a} == s;
    }
  }

  lemma OnlyIsSmallest(files: seq<Entry>, a: u32)
    ensures IsSmallest(files, {a}, a)
  {
    hide Le;
    LeTotal(files, a, a);
  }

  ghost function Smallest(files: seq<Entry>, s: set<u32>): (m: u32)
    requires s != {}
    ensures IsSmallest(files, s, m)
  {
    SmallestExists(files, s);
    var m :| IsSmallest(files, s, m);
    m
  }

  /** All of `s` in path order. */
  ghost function Ranked(files: seq<Entry>, s: set<u32>): (r: seq<u32>)
    ensures |r| == |s| && forall id :: id in r <==> id in s
  {
    if s == {} then [] else [Smallest(files, s)] + Ranked(files, s - {Smallest(files, s)})
  }

  /** What selecting, truncating and sorting leave: the `max` first by path, in path order. */
  ghost predicate Selection(files: seq<Entry>, results: set<u32>, max: nat, kept: seq<u32>) {
    && NoDup(kept) && Sorted(files, kept)
    && |kept| == (if |results| <= max then |results| else max)
    && (forall id :: id in kept ==> id in results)
    && (forall a, b :: a in kept && b in results && b !in kept ==> Le(files, a, b))
  }

  /** With distinct paths the selection is the front of the fully sorted list, whatever order the set came in. */
  lemma {:induction false} SelectionIsUnique(files: seq<Entry>, results: set<u32>, max: nat, kept: seq<u32>)
    requires Selection(files, results, max, kept) && Distinct(files, results)
    ensures kept == FirstOf(Ranked(files, results), max)
    decreases |kept|
  {
    hide Le, Selection, Distinct, Ranked;
    if kept == [] {
      SelectionSize(files, results, max, kept);
    } else {
      var m := kept[0];
      var rest := results - {m};
      SelectionTail(files, results, max, kept);
      FirstIsSmallest(files, results, max, kept);
      DistinctSubset(files, rest, results);
      SelectionIsUnique(files, rest, max - 1, kept[1..]);
      RankedStep(files, results, max);
      assert kept == [m] + kept[1..];
    }
  }

  lemma DistinctSubset(files: seq<Entry>, a: set<u32>, b: set<u32>)
    requires a <= b && Distinct(files, b)
    ensures Distinct(files, a)
  {
  }

  lemma RankedUnfolds(files: seq<Entry>, s: set<u32>)
    requires s != {}
    ensures Ranked(files, s) == [Smallest(files, s)] + Ranked(files, s - {Smallest(files, s)})
  {
    hide Le, Smallest;
  }

  lemma FirstOfStep(x: u32, rest: seq<u32>, max: nat)
    requires max > 0
    ensures FirstOf([x] + rest, max) == [x] + FirstOf(rest, max - 1)
  {
  }

  lemma RankedStep(files: seq<Entry>, s: set<u32>, max: nat)
    requires s != {} && max > 0
    ensures var m := Smallest(files, s);
      FirstOf(Ranked(files, s), max) == [m] + FirstOf(Ranked(files, s - {m}), max - 1)
  {
    hide Le, Ranked, Smallest, FirstOf;
    RankedUnfolds(files, s);
    FirstOfStep(Smallest(files, s), Ranked(files, s - {Smallest(files, s)}), max);
  }

  lemma SelectionSize(files: seq<Entry>, results: set<u32>, max: nat, kept: seq<u32>)
    requires Selection(files, results, max, kept)
    ensures |kept| == (if |results| <= max then |results| else max)
  {
  }

  /** What is left after the first is the selection from what is left. */
  lemma SelectionTail(files: seq<Entry>, results: set<u32>, max: nat, kept: seq<u32>)
    requires Selection(files, results, max, kept) && kept != []
    ensures max > 0 && kept[0] in results && Selection(files, results - {kept[0]}, max - 1, kept[1..])
  {
    hide Le;
    assert forall id :: id in kept[1..] ==> id in kept && id != kept[0];
    assert forall id :: id in kept ==> id == kept[0] || id in kept[1..];
  }

  lemma FirstIsSmallest(files: seq<Entry>, results: set<u32>, max: nat, kept: seq<u32>)
    requires Selection(files, results, max, kept) && Distinct(files, results) && kept != []
    ensures kept[0] == Smallest(files, results)
  {
    hide Le;
    var m := Smallest(files, results);
    assert Le(files, kept[0], m) by {
      if m in kept {
        var i :| 0 <= i < |kept| && kept[i] == m;
        LeTotal(files, m, m);
      }
    }
    LeAntisymmetric(files, m, kept[0]);
  }

  /** When everything fits, the selection holds exactly the candidates. */
  lemma SelectionKeepsAll(files: seq<Entry>, results: set<u32>, max: nat, kept: seq<u32>)
    requires Selection(files, results, max, kept) && |results| <= max
    ensures forall id :: id in kept <==> id in results
  {
    var elems := Elems(kept);
    ElemsOfDistinct(kept);
    assert elems <= results;
    SubsetOfSameSize(elems, results);
  }

  lemma SubsetOfSameSize(a: set<u32>, b: set<u32>)
    requires a <= b && |a| == |b|
    ensures a == b
  {
    assert b == a + (b - a);
  }

  lemma {:induction false} ElemsOfDistinct(ids: seq<u32>)
    requires NoDup(ids)
    ensures |Elems(ids)| == |ids|
  {
    if ids == [] {
      assert Elems(ids) == {};
    } else {
      ElemsOfDistinct(ids[1..]);
      assert Elems(ids) == {ids[0]} + Elems(ids[1..]);
    }
  }

  // ---- selecting in place --------------------------------------------------------------

  /** The ids in the arbitrary order a hash set gives them. */
  method Enumerate(results: set<u32>) returns (ids: seq<u32>)
    ensures NoDup(ids) && |ids| == |results|
    ensures forall id :: id in ids <==> id in results
  {
    ids := [];
    var todo := results;
    while todo != {}
      invariant NoDup(ids) && |ids| + |todo| == |results|
      invariant forall id :: id in results <==> id in todo || id in ids
      invariant forall id :: id in ids ==> id !in todo
    {
      var id :| id in todo;
      todo := todo - {id};
      ids := ids + [id];
    }
  }

  predicate SamePermuted(a: seq<u32>, b: seq<u32>) {
    multiset(a) == multiset(b)
  }

  lemma {:induction false} CountsAtMostOne(ids: seq<u32>)
    ensures NoDup(ids) <==> forall id :: multiset(ids)[id] <= 1
  {
    if ids != [] {
      CountsAtMostOne(ids[1..]);
      assert ids == [ids[0]] + ids[1..];
      var tail := ids[1..];
      assert multiset(ids) == multiset{ids[0]} + multiset(tail);
      if NoDup(ids) {
        forall i, j | 0 <= i < j < |tail| ensures tail[i] != tail[j] {
          assert ids[i + 1] != ids[j + 1];
        }
        assert ids[0] !in tail;
      } else {
        var i, j :| 0 <= i < j < |ids| && ids[i] == ids[j];
        if i == 0 {
          assert tail[j - 1] == ids[0];
          assert multiset(ids)[ids[0]] >= 2;
        } else {
          assert tail[i - 1] == tail[j - 1];
          var id :| multiset(tail)[id] > 1;
          assert multiset(ids)[id] > 1;
        }
      }
    }
  }

  lemma PermutationKeeps(a: seq<u32>, b: seq<u32>)
    requires SamePermuted(a, b) && NoDup(a)
    ensures NoDup(b) && |a| == |b| && forall id :: id in a <==> id in b
  {
    CountsAtMostOne(a);
    CountsAtMostOne(b);
    assert |multiset(a)| == |a| && |multiset(b)| == |b|;
    forall id ensures id in a <==> id in b {
      assert id in a <==> id in multiset(a);
      assert id in b <==> id in multiset(b);
    }
  }

  method SortByPath(files: seq<Entry>, ids: seq<u32>) returns (r: seq<u32>)
    ensures SamePermuted(ids, r) && Sorted(files, r)
  {
    hide Le;
    r := [];
    var i := 0;
    while i < |ids|
      invariant 0 <= i <= |ids|
      invariant SamePermuted(ids[..i], r) && Sorted(files, r)
    {
      r := Insert(files, r, ids[i]);
      assert ids[..i + 1] == ids[..i] + [ids[i]];
      i := i + 1;
    }
    assert ids[..i] == ids;
  }

  method Insert(files: seq<Entry>, sorted: seq<u32>, id: u32) returns (r: seq<u32>)
    requires Sorted(files, sorted)
    ensures SamePermuted(sorted + [id], r) && Sorted(files, r)
  {
    hide Le, SamePermuted;
    var i := |sorted|;
    while i > 0 && !Le(files, sorted[i - 1], id)
      invariant 0 <= i <= |sorted|
      invariant forall j :: i <= j < |sorted| ==> Le(files, id, sorted[j])
    {
      LeTotal(files, sorted[i - 1], id);
      i := i - 1;
    }
    forall j | 0 <= j < i ensures Le(files, sorted[j], id) {
      if j < i - 1 {
        LeTransitive(files, sorted[j], sorted[i - 1], id);
      }
    }
    InsertedSorted(files, sorted, i, id);
    InsertedPermuted(sorted, i, id);
    r := sorted[..i] + [id] + sorted[i..];
  }

  lemma InsertedSorted(files: seq<Entry>, sorted: seq<u32>, at: nat, id: u32)
    requires Sorted(files, sorted) && at <= |sorted|
    requires forall j :: 0 <= j < at ==> Le(files, sorted[j], id)
    requires forall j :: at <= j < |sorted| ==> Le(files, id, sorted[j])
    ensures Sorted(files, sorted[..at] + [id] + sorted[at..])
  {
    hide Le;
    var r := sorted[..at] + [id] + sorted[at..];
    forall i, j | 0 <= i < j < |r| ensures Le(files, r[i], r[j]) {
      var (a, b) := (if i < at then i else i - 1, if j < at then j else j - 1);
      assert i != at ==> r[i] == sorted[a];
      assert j != at ==> r[j] == sorted[b];
    }
  }

  lemma InsertedPermuted(s: seq<u32>, at: nat, id: u32)
    requires at <= |s|
    ensures SamePermuted(s + [id], s[..at] + [id] + s[at..])
  {
    assert s == s[..at] + s[at..];
  }

  /** The library's selection, of which only this contract is used: place `n` is as if sorted, and splits the rest. */
  method SelectNth(files: seq<Entry>, ids: seq<u32>, n: nat) returns (r: seq<u32>)
    requires n < |ids|
    ensures SamePermuted(ids, r) && |r| == |ids|
    ensures forall i :: 0 <= i < n ==> Le(files, r[i], r[n])
    ensures forall i :: n < i < |r| ==> Le(files, r[n], r[i])
  {
    hide Le;
    r := SortByPath(files, ids);
    assert |multiset(ids)| == |multiset(r)|;
  }

  method SelectByPath(files: seq<Entry>, results: set<u32>, max: nat) returns (kept: seq<u32>)
    ensures Selection(files, results, max, kept)
  {
    hide Le;
    var ids := Enumerate(results);
    ghost var all := ids;
    if |ids| > max {
      var split := SelectNth(files, ids, max);
      PermutationKeeps(ids, split);
      ids := split[..max];
      FrontIsSmallest(files, split, max);
    }
    kept := SortByPath(files, ids);
    PermutationKeeps(ids, kept);
  }

  lemma FrontIsSmallest(files: seq<Entry>, split: seq<u32>, n: nat)
    requires n < |split|
    requires forall i :: 0 <= i < n ==> Le(files, split[i], split[n])
    requires forall i :: n < i < |split| ==> Le(files, split[n], split[i])
    ensures forall a, b :: a in split[..n] && b in split && b !in split[..n] ==> Le(files, a, b)
  {
    hide Le;
    forall k | 0 <= k < n ensures split[k] in split[..n] {
      assert split[..n][k] == split[k];
    }
    forall a, b | a in split[..n] && b in split && b !in split[..n]
      ensures Le(files, a, b)
    {
      var i :| 0 <= i < n && split[i] == a;
      var j :| 0 <= j < |split| && split[j] == b;
      if j > n {
        LeTransitive(files, a, split[n], b);
      }
    }
  }

  // ---- the response ----------------------------------------------------------------------

  predicate OccursAt(text: string, i: nat, phrase: string) {
    i + |phrase| <= |text| && text[i..i + |phrase|] == phrase
  }

  predicate Contains(text: string, phrase: string) {
    exists i :: 0 <= i <= |text| && OccursAt(text, i, phrase)
  }

  lemma ContainsAnywhere(text: string, phrase: string)
    ensures Contains(text, phrase) <==> exists before, after :: text == before + phrase + after
  {
    if Contains(text, phrase) {
      var i :| 0 <= i <= |text| && OccursAt(text, i, phrase);
      assert text == text[..i] + phrase + text[i + |phrase|..];
    }
    if before, after :| text == before + phrase + after {
      assert OccursAt(text, |before|, phrase);
    }
  }

  /** Ignoring case, the path has one of the phrases in it. */
  predicate Blocked(u: Unicode, path: string, phrases: seq<string>) {
    exists p :: p in phrases && Contains(u.lower(path), u.lower(p))
  }

  function FileOf(files: seq<Entry>, id: u32): SharedFile
    requires id < |files|
  {
    SharedFile(files[id].virtualPath, files[id].size, "", files[id].attributes)
  }

  /** The whole path, no extension, and the size and attributes of the entry. */
  predicate IsFileOf(f: SharedFile, files: seq<Entry>, id: u32) {
    && id < |files|
    && f.name == files[id].virtualPath && f.extension == ""
    && f.size == files[id].size && f.attributes == files[id].attributes
  }

  predicate Within(files: seq<Entry>, ids: seq<u32>) {
    forall i :: 0 <= i < |ids| ==> ids[i] < |files|
  }

  /** The files of the ids whose path is not blocked, in their order. */
  function Shown(u: Unicode, files: seq<Entry>, phrases: seq<string>, ids: seq<u32>): (r: seq<SharedFile>)
    requires Within(files, ids)
    ensures |r| <= |ids|
  {
    if ids == [] then []
    else
      (if Blocked(u, Path(files, ids[0]), phrases) then [] else [FileOf(files, ids[0])])
      + Shown(u, files, phrases, ids[1..])
  }

  lemma {:induction false} ShownExactly(u: Unicode, files: seq<Entry>, phrases: seq<string>, ids: seq<u32>,
                                        f: SharedFile)
    requires Within(files, ids)
    ensures f in Shown(u, files, phrases, ids) <==>
      exists id :: id in ids && id < |files| && !Blocked(u, Path(files, id), phrases) && f == FileOf(files, id)
  {
    hide Blocked;
    if ids != [] {
      ShownExactly(u, files, phrases, ids[1..], f);
      assert forall id :: id in ids <==> id == ids[0] || id in ids[1..];
    }
  }

  predicate NamesSorted(fs: seq<SharedFile>) {
    forall i, j :: 0 <= i < j < |fs| ==> LexLe(Utf8.Encode(fs[i].name), Utf8.Encode(fs[j].name))
  }

  lemma {:induction false} ShownSorted(u: Unicode, files: seq<Entry>, phrases: seq<string>, ids: seq<u32>)
    requires Within(files, ids) && Sorted(files, ids)
    ensures NamesSorted(Shown(u, files, phrases, ids))
  {
    hide Blocked, LexLe;
    if ids != [] {
      ShownSorted(u, files, phrases, ids[1..]);
      forall f | f in Shown(u, files, phrases, ids[1..])
        ensures LexLe(Utf8.Encode(Path(files, ids[0])), Utf8.Encode(f.name))
      {
        ShownExactly(u, files, phrases, ids[1..], f);
        var id :| id in ids[1..] && id < |files| && f == FileOf(files, id);
        assert Le(files, ids[0], id);
      }
    }
  }

  method DropBlocked(u: Unicode, files: seq<Entry>, phrases: seq<string>, ids: seq<u32>) returns (r: seq<SharedFile>)
    requires Within(files, ids)
    ensures r == Shown(u, files, phrases, ids)
  {
    hide Shown, Blocked, AnyContained, FileOf;
    r := [];
    var lowered := LowerAll(u, phrases);
    var i := 0;
    assert ids[0..] == ids;
    while i < |ids|
      invariant 0 <= i <= |ids|
      invariant r + Shown(u, files, phrases, ids[i..]) == Shown(u, files, phrases, ids)
    {
      var blocked := false;
      if phrases != [] {
        blocked := ContainsAny(u.lower(Path(files, ids[i])), lowered);
      }
      LoweredBlocks(u, Path(files, ids[i]), phrases);
      ShownStep(u, files, phrases, ids[i..], r);
      assert ids[i..][1..] == ids[i + 1..];
      if !blocked {
        r := r + [FileOf(files, ids[i])];
      }
      i := i + 1;
    }
    ShownEnd(u, files, phrases, r);
  }

  lemma ShownStep(u: Unicode, files: seq<Entry>, phrases: seq<string>, ids: seq<u32>, before: seq<SharedFile>)
    requires Within(files, ids) && ids != []
    ensures before + Shown(u, files, phrases, ids) ==
      (if Blocked(u, Path(files, ids[0]), phrases) then before else before + [FileOf(files, ids[0])])
      + Shown(u, files, phrases, ids[1..])
  {
    hide Blocked;
  }

  lemma ShownEnd(u: Unicode, files: seq<Entry>, phrases: seq<string>, all: seq<SharedFile>)
    ensures all + Shown(u, files, phrases, []) == all
  {
  }

  /**
   Selects, caps, and only then drops blocked paths. With distinct paths the outcome
   is that of sorting all candidates, taking the first `max` and filtering.
   */
  method CreateFileInfoList(u: Unicode, results: set<u32>, max: nat, phrases: seq<string>, index: ShareIndex)
    returns (r: seq<SharedFile>, ghost kept: seq<u32>)
    requires forall id :: id in results ==> id < |index.files|
    ensures Selection(index.files, results, max, kept) && Within(index.files, kept)
    ensures r == Shown(u, index.files, phrases, kept)
    ensures Distinct(index.files, results) ==>
      var front := FirstOf(Ranked(index.files, results), max);
      Within(index.files, front) && r == Shown(u, index.files, phrases, front)
  {
    hide Contains, Selection, Distinct;
    var files := index.files;
    var ids := SelectByPath(files, results, max);
    kept := ids;
    SelectionWithin(files, results, max, kept);
    if Distinct(files, results) {
      SelectionIsUnique(files, results, max, kept);
    }
    r := DropBlocked(u, files, phrases, ids);
  }

  lemma SelectionWithin(files: seq<Entry>, results: set<u32>, max: nat, kept: seq<u32>)
    requires forall id :: id in results ==> id < |files|
    requires Selection(files, results, max, kept)
    ensures Within(files, kept)
  {
    forall i | 0 <= i < |kept| ensures kept[i] < |files| {
      assert kept[i] in kept;
    }
  }

  function LowerAll(u: Unicode, phrases: seq<string>): (r: seq<string>)
    ensures |r| == |phrases|
    ensures forall i :: 0 <= i < |r| ==> r[i] == u.lower(phrases[i])
  {
    seq(|phrases|, i requires 0 <= i < |phrases| => u.lower(phrases[i]))
  }

  predicate AnyContained(text: string, phrases: seq<string>) {
    exists i :: 0 <= i < |phrases| && Contains(text, phrases[i])
  }

  method ContainsAny(text: string, phrases: seq<string>) returns (found: bool)
    ensures found == AnyContained(text, phrases)
  {
    hide Contains;
    var i := 0;
    while i < |phrases|
      invariant 0 <= i <= |phrases|
      invariant forall j :: 0 <= j < i ==> !Contains(text, phrases[j])
    {
      if Contains(text, phrases[i]) {
        return true;
      }
      i := i + 1;
    }
    found := false;
  }

  lemma LoweredBlocks(u: Unicode, path: string, phrases: seq<string>)
    ensures Blocked(u, path, phrases) <==> AnyContained(u.lower(path), LowerAll(u, phrases))
    ensures phrases == [] ==> !Blocked(u, path, phrases)
  {
    hide Contains;
    if AnyContained(u.lower(path), LowerAll(u, phrases)) {
      var i :| 0 <= i < |phrases| && Contains(u.lower(path), LowerAll(u, phrases)[i]);
      assert phrases[i] in phrases;
    }
    if Blocked(u, path, phrases) {
      var p :| p in phrases && Contains(u.lower(path), u.lower(p));
      var i :| 0 <= i < |phrases| && phrases[i] == p;
      assert Contains(u.lower(path), LowerAll(u, phrases)[i]);
    }
  }

  /** All matching ids; none without an included word. */
  ghost function Found(terms: Terms, index: ShareIndex): set<u32> {
    if terms.included == [] then {} else set id: u32 | 0 <= id < |index.files| && Matches(terms, index.wordIndex, id)
  }

  lemma FoundIsAll(terms: Terms, index: ShareIndex, id: u32)
    requires index.InRange() && terms.included != []
    ensures id in Found(terms, index) <==> Matches(terms, index.wordIndex, id)
  {
    if Matches(terms, index.wordIndex, id) {
      var w := terms.included[0];
      assert HasWord(index.wordIndex, w, id);
      var i :| 0 <= i < |index.wordIndex[w]| && index.wordIndex[w][i] == id;
    }
  }

  /** What the cap is applied to: a lone word's list has been cut to the cap already. */
  ghost function Candidates(terms: Terms, max: nat, index: ShareIndex): set<u32> {
    if LoneWord(terms) then
      var w := terms.included[0];
      if w in index.wordIndex then Elems(FirstOf(index.wordIndex[w], max)) else {}
    else Found(terms, index)
  }

  /** The matching ids fit the cap, and a lone word's list has no duplicates. */
  ghost predicate Fits(terms: Terms, max: nat, index: ShareIndex) {
    && |Found(terms, index)| <= max
    && (LoneWord(terms) && terms.included[0] in index.wordIndex ==> NoDup(index.wordIndex[terms.included[0]]))
  }

  lemma LoneWordMatches(terms: Terms, index: map<string, seq<u32>>, id: u32)
    requires LoneWord(terms)
    ensures Matches(terms, index, id) <==> HasWord(index, terms.included[0], id)
  {
  }

  lemma CandidatesThatFit(terms: Terms, max: nat, index: ShareIndex)
    requires index.InRange() && Fits(terms, max, index)
    ensures Candidates(terms, max, index) == Found(terms, index)
  {
    if LoneWord(terms) {
      var w := terms.included[0];
      forall id ensures id in Found(terms, index) <==> HasWord(index.wordIndex, w, id) {
        FoundIsAll(terms, index, id);
        LoneWordMatches(terms, index.wordIndex, id);
      }
      if w in index.wordIndex {
        var ids := index.wordIndex[w];
        assert Elems(ids) == Found(terms, index);
        ElemsOfDistinct(ids);
      }
    }
  }

  /**
   Every response is the selection from the candidates with blocked paths dropped; it
   is in path order and within the cap.
   */
  method Respond(u: Unicode, term: string, max: nat, phrases: seq<string>, index: ShareIndex)
    returns (r: seq<SharedFile>, ghost kept: seq<u32>)
    requires index.InRange()
    ensures Selection(index.files, Candidates(TermsOf(u, term), max, index), max, kept) && Within(index.files, kept)
    ensures r == Shown(u, index.files, phrases, kept)
    ensures |r| <= max && NamesSorted(r)
    ensures forall f :: f in r ==> exists id :: id in kept && IsFileOf(f, index.files, id)
  {
    hide Matches, Shown, Ranked, Distinct, LoneWord;
    var terms := SanitizeSearchTerm(u, term);
    var results := CreateSearchResultList(terms, max, index.wordIndex);
    CandidatesAre(terms, max, index, results);
    match results {
      case Some(ids) =>
        r, kept := CreateFileInfoList(u, ids, max, phrases, index);
      case None =>
        r, kept := [], [];
        assert Shown(u, index.files, phrases, []) == [];
    }
    ShownSorted(u, index.files, phrases, kept);
    forall f | f in r ensures exists id :: id in kept && IsFileOf(f, index.files, id) {
      ShownExactly(u, index.files, phrases, kept, f);
    }
  }

  lemma CandidatesAre(terms: Terms, max: nat, index: ShareIndex, results: Option<set<u32>>)
    requires index.InRange()
    requires
      if |terms.included| == 1 && terms.partial == [] && terms.excluded == [] then
        var w := terms.included[0];
        results == if w !in index.wordIndex || FirstOf(index.wordIndex[w], max) == [] then None
                   else Some(Elems(FirstOf(index.wordIndex[w], max)))
      else
        && (results.None? <==> terms.included == [] || forall id :: !Matches(terms, index.wordIndex, id))
        && (results.Some? ==> forall id :: id in results.value <==> Matches(terms, index.wordIndex, id))
    ensures Candidates(terms, max, index) == (if results.Some? then results.value else {})
    ensures forall id :: id in Candidates(terms, max, index) ==> id < |index.files|
  {
    hide Matches;
    if LoneWord(terms) {
      var w := terms.included[0];
      if results.Some? {
        forall id | id in results.value ensures id < |index.files| {
          var i :| 0 <= i < |index.wordIndex[w]| && index.wordIndex[w][i] == id;
        }
      }
    } else if terms.included != [] {
      forall id ensures id in Found(terms, index) <==> Matches(terms, index.wordIndex, id) {
        FoundIsAll(terms, index, id);
      }
    }
  }

  /** When the matches fit the cap, a response holds exactly the matching files that are not blocked. */
  lemma ResponseIsExact(u: Unicode, terms: Terms, max: nat, phrases: seq<string>, index: ShareIndex, kept: seq<u32>)
    requires index.InRange() && Fits(terms, max, index)
    requires Selection(index.files, Candidates(terms, max, index), max, kept) && Within(index.files, kept)
    ensures forall f :: f in Shown(u, index.files, phrases, kept) <==>
      exists id :: id in Found(terms, index)
        && !Blocked(u, index.files[id].virtualPath, phrases) && IsFileOf(f, index.files, id)
    ensures Distinct(index.files, Found(terms, index)) ==> kept == Ranked(index.files, Found(terms, index))
  {
    hide Blocked, Selection, Matches, Distinct;
    var (files, found) := (index.files, Found(terms, index));
    CandidatesThatFit(terms, max, index);
    SelectionKeepsAll(files, found, max, kept);
    forall f ensures f in Shown(u, files, phrases, kept) <==>
      exists id :: id in found && !Blocked(u, files[id].virtualPath, phrases) && IsFileOf(f, files, id)
    {
      ShownExactly(u, files, phrases, kept, f);
    }
    if Distinct(files, found) {
      SelectionIsUnique(files, found, max, kept);
    }
  }
}
