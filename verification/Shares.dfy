/** The share index being built, and what a search of a built index means. */
module Shares {
  import opened Bytes
  import opened Search
  import opened SearchResponse

  predicate Ascending(ids: seq<u32>) {
    forall i, j :: 0 <= i < j < |ids| ==> ids[i] < ids[j]
  }

  /** The words of a path; splitting and lower-casing are the standard library's. */
  datatype Tokenizer = Tokenizer(tokens: string -> seq<string>)

  /** Every list ascends, and holds exactly the ids of the files whose path has the word. */
  ghost predicate Indexed(t: Tokenizer, index: ShareIndex) {
    && index.InRange()
    && (forall w :: w in index.wordIndex ==> Ascending(index.wordIndex[w]))
    && (forall w, id: u32 :: HasWord(index.wordIndex, w, id) <==>
         id < |index.files| && w in t.tokens(index.files[id].virtualPath))
  }

  class Builder {
    const tokenizer: Tokenizer
    var files: seq<Entry>
    var wordIndex: map<string, seq<u32>>

    constructor (t: Tokenizer)
      ensures tokenizer == t && files == [] && Indexed(t, Index())
    {
      tokenizer := t;
      files, wordIndex := [], map[];
    }

    function Index(): ShareIndex
      reads this
    {
      ShareIndex(files, wordIndex)
    }

    /** Ids are a 32-bit cast of the file count, so the index stays true to the files up to 2^32 of them. */
    method AddFile(entry: Entry)
      requires Indexed(tokenizer, Index())
      modifies this
      ensures files == old(files) + [entry]
      ensures old(|files|) < U32_LIMIT ==> Indexed(tokenizer, Index())
    {
      hide Indexed, Listed, Pushed;
      var id := Truncate32(|files|);
      var tokens := tokenizer.tokens(entry.virtualPath);
      ghost var was := wordIndex;
      ghost var index := Index();
      IndexedInRange(tokenizer, index);
      NothingListedYet(was, id);
      assert tokens[..0] == [];
      var i := 0;
      while i < |tokens|
        invariant 0 <= i <= |tokens|
        invariant files == old(files)
        invariant id == |files| ==> Listed(was, wordIndex, tokens[..i], id)
      {
        var bucket := if tokens[i] in wordIndex then wordIndex[tokens[i]] else [];
        if id == |files| {
          ListedStep(index, wordIndex, tokens[..i], tokens[i]);
        }
        wordIndex := wordIndex[tokens[i] := Pushed(bucket, id)];
        assert tokens[..i + 1] == tokens[..i] + [tokens[i]];
        i := i + 1;
      }
      assert tokens[..i] == tokens;
      if id == |files| {
        ListedIsIndexed(tokenizer, files, was, wordIndex, entry);
      }
      files := files + [entry];
    }
  }

  /** After some of a new file's words: its id stands at the end of just those words' lists. */
  ghost predicate Listed(was: map<string, seq<u32>>, now: map<string, seq<u32>>, words: seq<string>, id: u32) {
    && (forall w :: w in now <==> w in was || w in words)
    && (forall w :: w in now ==> now[w] == (if w in was then was[w] else []) + (if w in words then [id] else []))
  }

  /** A word's list with an id at its end, which a repeated word does not repeat. */
  function Pushed(bucket: seq<u32>, id: u32): seq<u32> {
    if bucket == [] || bucket[|bucket| - 1] != id then bucket + [id] else bucket
  }

  lemma IndexedInRange(t: Tokenizer, index: ShareIndex)
    requires Indexed(t, index)
    ensures index.InRange()
  {
  }

  lemma NothingListedYet(was: map<string, seq<u32>>, id: u32)
    ensures Listed(was, was, [], id)
  {
  }

  lemma ListedStep(index: ShareIndex, now: map<string, seq<u32>>, words: seq<string>, w: string)
    requires index.InRange() && |index.files| < U32_LIMIT
    requires Listed(index.wordIndex, now, words, |index.files|)
    ensures Listed(index.wordIndex, now[w := Pushed(if w in now then now[w] else [], |index.files|)], words + [w],
                   |index.files|)
  {
  }

  lemma ListedIsIndexed(t: Tokenizer, files: seq<Entry>, was: map<string, seq<u32>>, now: map<string, seq<u32>>,
                        entry: Entry)
    requires |files| < U32_LIMIT && Indexed(t, ShareIndex(files, was))
    requires Listed(was, now, t.tokens(entry.virtualPath), |files|)
    ensures Indexed(t, ShareIndex(files + [entry], now))
  {
    var (id, words) := (|files|, t.tokens(entry.virtualPath));
    forall w | w in now
      ensures Ascending(now[w]) && forall i :: 0 <= i < |now[w]| ==> now[w][i] <= id
    {
    }
    forall w, x: u32
      ensures HasWord(now, w, x) <==> x <= id && w in t.tokens((files + [entry])[x].virtualPath)
    {
      assert HasWord(was, w, x) ==> x < id;
      assert HasWord(now, w, x) <==> HasWord(was, w, x) || (w in words && x == id);
    }
  }

  predicate HasToken(tokens: seq<string>, suffix: string) {
    exists i :: 0 <= i < |tokens| && EndsWith(tokens[i], suffix)
  }

  /** What a query asks of a file's words. */
  predicate Wanted(terms: Terms, tokens: seq<string>) {
    && (forall i :: 0 <= i < |terms.included| ==> terms.included[i] in tokens)
    && (forall i :: 0 <= i < |terms.partial| ==> HasToken(tokens, terms.partial[i]))
    && (forall i :: 0 <= i < |terms.excluded| ==> terms.excluded[i] !in tokens)
  }

  /** On a built index a query finds the files whose path has the wanted words, and nothing else. */
  lemma SearchMeans(t: Tokenizer, terms: Terms, max: nat, index: ShareIndex)
    requires Indexed(t, index) && terms.included != []
    ensures forall id: u32 :: id in Found(terms, index) <==>
      id < |index.files| && Wanted(terms, t.tokens(Path(index.files, id)))
    ensures Fits(terms, max, index) <==> |Found(terms, index)| <= max
  {
    hide EndsWith, LoneWord;
    forall id: u32
      ensures id in Found(terms, index) <==> id < |index.files| && Wanted(terms, t.tokens(Path(index.files, id)))
    {
      if id < |index.files| {
        var tokens := t.tokens(Path(index.files, id));
        forall p ensures ListedUnder(index.wordIndex, index.wordIndex.Keys, p, id) <==> HasToken(tokens, p) {
          if HasToken(tokens, p) {
            var i :| 0 <= i < |tokens| && EndsWith(tokens[i], p);
            assert HasWord(index.wordIndex, tokens[i], id);
          }
          if ListedUnder(index.wordIndex, index.wordIndex.Keys, p, id) {
            var w :| w in index.wordIndex && EndsWith(w, p) && id in index.wordIndex[w];
            assert HasWord(index.wordIndex, w, id);
            var i :| 0 <= i < |tokens| && tokens[i] == w;
          }
        }
        FoundIsAll(terms, index, id);
      }
    }
    assert forall w :: w in index.wordIndex ==> NoDup(index.wordIndex[w]);
  }
}
