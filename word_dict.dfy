/**
 Vocabulary construction of the bag-of-words baseline (create_word_dict).

 A corpus is scanned record by record; every token not seen before gets the
 next integer index, starting at 0, from one counter that runs across the
 whole corpus. The builder is a method with the source's nested loops; it is
 specified by BuildDict, a fold over the flattened token stream, and the
 lemmas below say what that fold guarantees: the keys are exactly the corpus
 tokens, the indices are exactly 0 .. |dict|-1 with no index used twice, and
 a token's index is the number of distinct tokens seen before its first
 occurrence.
 */
module WordDict {

  type Token = string

  /** The part of a corpus record the vocabulary reads. */
  datatype Record = Record(content: seq<Token>, question: seq<Token>, posText: seq<Token>)

  /** The tokens of one record, in order: content, then question, then option text. */
  function Words(r: Record): (ws: seq<Token>)
    ensures |ws| == |r.content| + |r.question| + |r.posText|
    ensures forall w :: w in ws <==> w in r.content || w in r.question || w in r.posText
  {
    r.content + r.question + r.posText
  }

  /** All tokens of a corpus, record after record. */
  function Flatten(corpus: seq<Record>): (ws: seq<Token>)
    ensures forall w :: w in ws <==> exists k :: 0 <= k < |corpus| && w in Words(corpus[k])
  {
    if corpus == [] then []
    else
      var init := corpus[..|corpus| - 1];
      var ws := Flatten(init) + Words(corpus[|corpus| - 1]);
      assert forall k :: 0 <= k < |init| ==> init[k] == corpus[k];
      ws
  }

  /** The set of distinct tokens of a token stream. */
  function Elems(ws: seq<Token>): set<Token>
  {
    set w | w in ws
  }

  /** One step of the builder: an unseen token receives the current dictionary size as its index. */
  function Insert(d: map<Token, int>, w: Token): map<Token, int>
  {
    if w in d then d else d[w := |d|]
  }

  /** The dictionary the builder produces from a token stream, scanning it left to right. */
  function BuildDict(ws: seq<Token>): map<Token, int>
  {
    if ws == [] then map[] else Insert(BuildDict(ws[..|ws| - 1]), ws[|ws| - 1])
  }

  /** The position of the first occurrence of w in ws. */
  function FirstIndex(ws: seq<Token>, w: Token): (i: nat)
    requires w in ws
    ensures i < |ws| && ws[i] == w && w !in ws[..i]
  {
    if ws[0] == w then 0
    else
      var i := 1 + FirstIndex(ws[1..], w);
      assert ws[..i] == [ws[0]] + ws[1..][..i - 1];
      i
  }

  /** Every key has an index in 0 .. |d|-1, and no two keys share an index. */
  ghost predicate Numbering(d: map<Token, int>)
  {
    && (forall w :: w in d ==> 0 <= d[w] < |d|)
    && (forall v, w :: v in d && w in d && d[v] == d[w] ==> v == w)
  }

  /** The keys of the dictionary are exactly the tokens of the stream. */
  lemma {:induction false} DictKeys(ws: seq<Token>)
    ensures BuildDict(ws).Keys == Elems(ws)
  {
    if ws != [] {
      var init, last := ws[..|ws| - 1], ws[|ws| - 1];
      DictKeys(init);
      assert ws == init + [last];
    }
  }

  /** The indices are a numbering: exactly the integers 0 .. |d|-1, each used by one key. */
  lemma {:induction false} DictNumbering(ws: seq<Token>)
    ensures Numbering(BuildDict(ws))
    ensures forall k :: 0 <= k < |BuildDict(ws)| ==> k in BuildDict(ws).Values
  {
    if ws != [] {
      var init, last := ws[..|ws| - 1], ws[|ws| - 1];
      DictNumbering(init);
      var d := BuildDict(init);
      if last !in d {
        var d' := d[last := |d|];
        assert |d'| == |d| + 1;
        forall k | 0 <= k < |d'| ensures k in d'.Values {
          if k < |d| {
            assert k in d.Values;
            var w :| w in d && d[w] == k;
            assert w != last && d'[w] == k;
          } else {
            assert d'[last] == k;
          }
        }
      }
    }
  }

  /** Index of a token = number of distinct tokens that occur before its first occurrence. */
  lemma {:induction false} DictFirstOccurrence(ws: seq<Token>, w: Token)
    requires w in ws
    ensures w in BuildDict(ws)
    ensures BuildDict(ws)[w] == |Elems(ws[..FirstIndex(ws, w)])|
  {
    var init, last := ws[..|ws| - 1], ws[|ws| - 1];
    assert ws == init + [last];
    DictKeys(init);
    var d := BuildDict(init);
    if w in init {
      DictFirstOccurrence(init, w);
      var f := FirstIndex(init, w);
      assert ws[f] == w && w !in ws[..f] by { assert ws[..f] == init[..f]; }
      FirstIndexUnique(ws, w, f);
      assert ws[..f] == init[..f];
      if last !in d {
        assert last != w;
      }
    } else {
      assert last == w;
      assert w !in d;
      FirstIndexUnique(ws, w, |init|);
      assert ws[..|init|] == init;
      assert |d| == |d.Keys|;
    }
  }

  /** FirstIndex is the only position holding w with no w before it. */
  lemma FirstIndexUnique(ws: seq<Token>, w: Token, i: nat)
    requires i < |ws| && ws[i] == w && w !in ws[..i]
    ensures FirstIndex(ws, w) == i
  {
  }

  /** A strictly larger set of distinct tokens has a strictly larger size. */
  lemma StrictSubsetSize(a: set<Token>, b: set<Token>, x: Token)
    requires a <= b && x in b && x !in a
    ensures |a| < |b|
  {
    assert b == a + (b - a);
    assert x in b - a;
  }

  /** Indices follow first occurrence, in both directions. */
  lemma DictOrder(ws: seq<Token>, v: Token, w: Token)
    requires v in ws && w in ws
    ensures v in BuildDict(ws) && w in BuildDict(ws)
    ensures BuildDict(ws)[v] < BuildDict(ws)[w] <==> FirstIndex(ws, v) < FirstIndex(ws, w)
  {
    DictFirstOccurrence(ws, v);
    DictFirstOccurrence(ws, w);
    var fv, fw := FirstIndex(ws, v), FirstIndex(ws, w);
    if fv < fw {
      PrefixElems(ws, fv, fw);
      assert ws[..fw][fv] == v;
      StrictSubsetSize(Elems(ws[..fv]), Elems(ws[..fw]), v);
    } else if fw < fv {
      PrefixElems(ws, fw, fv);
      assert ws[..fv][fw] == w;
      StrictSubsetSize(Elems(ws[..fw]), Elems(ws[..fv]), w);
    }
  }

  /** A shorter prefix has no more distinct tokens than a longer one. */
  lemma PrefixElems(ws: seq<Token>, i: nat, j: nat)
    requires i <= j <= |ws|
    ensures Elems(ws[..i]) <= Elems(ws[..j])
  {
    forall x | x in Elems(ws[..i]) ensures x in Elems(ws[..j]) {
      var k :| 0 <= k < i && ws[..i][k] == x;
      assert ws[..j][k] == x;
    }
  }

  /** Scanning more tokens never changes an index already given out. */
  lemma {:induction false} DictExtends(ws: seq<Token>, more: seq<Token>)
    ensures forall w :: w in BuildDict(ws) ==>
      w in BuildDict(ws + more) && BuildDict(ws + more)[w] == BuildDict(ws)[w]
  {
    if more != [] {
      var init, last := more[..|more| - 1], more[|more| - 1];
      DictExtends(ws, init);
      assert (ws + more)[..|ws + more| - 1] == ws + init;
      assert (ws + more)[|ws + more| - 1] == last;
    } else {
      assert ws + more == ws;
    }
  }

  /** Seeing a known token again changes neither the dictionary nor its size. */
  lemma DictRepeat(ws: seq<Token>, w: Token)
    requires w in ws
    ensures BuildDict(ws + [w]) == BuildDict(ws)
  {
    DictKeys(ws);
    assert (ws + [w])[..|ws|] == ws;
  }

  /** Scanning one more token is one Insert step. */
  lemma BuildDictStep(seen: seq<Token>, words: seq<Token>, j: nat)
    requires j < |words|
    ensures BuildDict(seen + words[..j + 1]) == Insert(BuildDict(seen + words[..j]), words[j])
  {
    assert (seen + words[..j + 1])[..|seen| + j] == seen + words[..j];
  }

  /** Flattening one more record appends its words. */
  lemma FlattenStep(corpus: seq<Record>, r: nat)
    requires r < |corpus|
    ensures Flatten(corpus[..r + 1]) == Flatten(corpus[..r]) + Words(corpus[r])
  {
    assert corpus[..r + 1][..r] == corpus[..r];
  }

  /**
   The builder: one counter runs across all records; every unseen token is
   entered under the counter's value, which is then incremented.
   */
  method CreateWordDict(corpus: seq<Record>) returns (wordDict: map<Token, int>, wordNum: int)
    ensures wordDict == BuildDict(Flatten(corpus))
    ensures wordNum == |wordDict|
    ensures forall w :: w in wordDict <==> exists k :: 0 <= k < |corpus| && w in Words(corpus[k])
    ensures Numbering(wordDict)
  {
    wordDict := map[];
    wordNum := 0;
    for r := 0 to |corpus|
      invariant wordDict == BuildDict(Flatten(corpus[..r]))
      invariant wordNum == |wordDict|
    {
      var words := Words(corpus[r]);
      ghost var seen := Flatten(corpus[..r]);
      assert seen + words[..0] == seen;
      for j := 0 to |words|
        invariant wordDict == BuildDict(seen + words[..j])
        invariant wordNum == |wordDict|
      {
        var word := words[j];
        BuildDictStep(seen, words, j);
        if word !in wordDict {
          wordDict := wordDict[word := wordNum];
          wordNum := wordNum + 1;
        }
      }
      FlattenStep(corpus, r);
      assert words[..|words|] == words;
    }
    assert corpus[..|corpus|] == corpus;
    ghost var all := Flatten(corpus);
    DictKeys(all);
    DictNumbering(all);
    assert forall w :: w in wordDict <==> w in all;
  }
}
