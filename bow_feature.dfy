/**
 Bag-of-words features (create_bow_feature).

 For one record, a zero vector as long as the vocabulary is allocated, and for
 every token of content + question + option text the slot at that token's
 index is incremented. The vector is a Python list, so a negative index
 counts from the end (PyIndex); an index outside -n .. n-1, or a token that is
 not in the dictionary, makes the source fail, which the precondition
 Indexable excludes.
 */
module BowFeature {

  import opened WordDict

  /** The slot a Python list of length n addresses with index v. */
  function PyIndex(v: int, n: nat): (k: int)
    requires -(n as int) <= v < n
    ensures 0 <= k < n
    ensures 0 <= v ==> k == v
  {
    if v < 0 then v + n else v
  }

  /** Every token has an entry whose index addresses a slot of a vector of length |d|. */
  predicate Indexable(d: map<Token, int>, ws: seq<Token>)
  {
    forall w :: w in ws ==> w in d && -|d| <= d[w] < |d|
  }

  /** Number of positions of ws whose token addresses slot k. */
  function SlotCount(d: map<Token, int>, ws: seq<Token>, k: int): nat
    requires Indexable(d, ws)
  {
    if ws == [] then 0
    else
      var init, last := ws[..|ws| - 1], ws[|ws| - 1];
      assert forall w :: w in init ==> w in ws;
      SlotCount(d, init, k) + if PyIndex(d[last], |d|) == k then 1 else 0
  }

  /** The feature vector of a token stream: one occurrence count per slot. */
  function Histogram(d: map<Token, int>, ws: seq<Token>): (h: seq<int>)
    requires Indexable(d, ws)
  {
    seq(|d|, k => SlotCount(d, ws, k))
  }

  /** Sum of a vector's entries. */
  function Sum(s: seq<int>): int
  {
    if s == [] then 0 else s[0] + Sum(s[1..])
  }

  /** A prefix of an indexable stream is indexable. */
  lemma IndexablePrefix(d: map<Token, int>, ws: seq<Token>, j: nat)
    requires Indexable(d, ws) && j <= |ws|
    ensures Indexable(d, ws[..j])
  {
    forall w | w in ws[..j] ensures w in ws {
      var i :| 0 <= i < j && ws[..j][i] == w;
      assert ws[i] == w;
    }
  }

  /** Counting one more token adds one to its own slot and nothing elsewhere. */
  lemma SlotCountStep(d: map<Token, int>, ws: seq<Token>, j: nat, k: int)
    requires Indexable(d, ws) && j < |ws|
    ensures Indexable(d, ws[..j]) && Indexable(d, ws[..j + 1])
    ensures SlotCount(d, ws[..j + 1], k)
         == SlotCount(d, ws[..j], k) + if PyIndex(d[ws[j]], |d|) == k then 1 else 0
  {
    IndexablePrefix(d, ws, j);
    IndexablePrefix(d, ws, j + 1);
    assert ws[..j + 1][..j] == ws[..j];
  }

  /** A vector that differs from another only by one extra unit in one slot has a sum one larger. */
  lemma {:induction false} BumpSum(s: seq<int>, t: seq<int>, i: nat)
    requires |s| == |t| && i < |s|
    requires t[i] == s[i] + 1
    requires forall j :: 0 <= j < |s| && j != i ==> t[j] == s[j]
    ensures Sum(t) == Sum(s) + 1
  {
    if i == 0 {
      assert t[1..] == s[1..];
    } else {
      BumpSum(s[1..], t[1..], i - 1);
    }
  }

  /** A vector of zeros sums to zero. */
  lemma {:induction false} SumZeros(s: seq<int>)
    requires forall j :: 0 <= j < |s| ==> s[j] == 0
    ensures Sum(s) == 0
  {
    if s != [] {
      SumZeros(s[1..]);
    }
  }

  /** The entries of a feature vector add up to the number of tokens, repeats included. */
  lemma {:induction false} HistogramSum(d: map<Token, int>, ws: seq<Token>)
    requires Indexable(d, ws)
    ensures Sum(Histogram(d, ws)) == |ws|
  {
    if ws == [] {
      SumZeros(Histogram(d, ws));
    } else {
      var n := |ws| - 1;
      SlotCountStep(d, ws, n, 0);
      assert ws[..n + 1] == ws;
      HistogramSum(d, ws[..n]);
      var s, t := Histogram(d, ws[..n]), Histogram(d, ws);
      var i := PyIndex(d[ws[n]], |d|);
      forall k | 0 <= k < |d| ensures t[k] == s[k] + if k == i then 1 else 0 {
        SlotCountStep(d, ws, n, k);
      }
      BumpSum(s, t, i);
    }
  }

  /** Under a numbering, the slot of a key counts exactly the occurrences of that key. */
  lemma {:induction false} SlotCountOccurrences(d: map<Token, int>, ws: seq<Token>, w: Token)
    requires Indexable(d, ws) && Numbering(d) && w in d
    ensures SlotCount(d, ws, d[w]) == multiset(ws)[w]
  {
    if ws != [] {
      var init, last := ws[..|ws| - 1], ws[|ws| - 1];
      assert ws == init + [last];
      IndexablePrefix(d, ws, |ws| - 1);
      SlotCountOccurrences(d, init, w);
      assert PyIndex(d[last], |d|) == d[last];
      assert d[last] == d[w] <==> last == w;
    }
  }

  /** Under a numbering, the entry at a key's index is the number of occurrences of that key. */
  lemma HistogramCounts(d: map<Token, int>, ws: seq<Token>, w: Token)
    requires Indexable(d, ws) && Numbering(d) && w in d
    ensures 0 <= d[w] < |Histogram(d, ws)|
    ensures Histogram(d, ws)[d[w]] == multiset(ws)[w]
  {
    SlotCountOccurrences(d, ws, w);
  }

  /** A slot that no token of the stream addresses stays zero. */
  lemma {:induction false} HistogramUnused(d: map<Token, int>, ws: seq<Token>, k: int)
    requires Indexable(d, ws) && 0 <= k < |d|
    requires forall w :: w in ws ==> PyIndex(d[w], |d|) != k
    ensures Histogram(d, ws)[k] == 0
  {
    if ws != [] {
      var n := |ws| - 1;
      SlotCountStep(d, ws, n, k);
      assert ws[..n + 1] == ws;
      IndexablePrefix(d, ws, n);
      forall w | w in ws[..n] ensures PyIndex(d[w], |d|) != k {
        assert w in ws;
      }
      HistogramUnused(d, ws[..n], k);
    }
  }

  /** A dictionary built from a corpus can index every record of that corpus. */
  lemma BuiltDictIndexable(corpus: seq<Record>, r: nat)
    requires r < |corpus|
    ensures Indexable(BuildDict(Flatten(corpus)), Words(corpus[r]))
  {
    var ws := Flatten(corpus);
    DictKeys(ws);
    DictNumbering(ws);
  }

  /**
   The feature builder: allocate |wordDict| zeros, then count every token of
   the record in the slot its index addresses.
   */
  method CreateBowFeature(wordDict: map<Token, int>, record: Record) returns (feature: array<int>)
    requires Indexable(wordDict, Words(record))
    ensures fresh(feature)
    ensures feature.Length == |wordDict|
    ensures feature[..] == Histogram(wordDict, Words(record))
  {
    var words := Words(record);
    var wordNum := |wordDict|;
    feature := new int[wordNum](_ => 0);
    IndexablePrefix(wordDict, words, 0);
    for j := 0 to |words|
      invariant Indexable(wordDict, words[..j])
      invariant feature[..] == Histogram(wordDict, words[..j])
    {
      var slot := PyIndex(wordDict[words[j]], wordNum);
      forall k | 0 <= k < wordNum {
        SlotCountStep(wordDict, words, j, k);
      }
      feature[slot] := feature[slot] + 1;
    }
    assert words[..|words|] == words;
  }
}
