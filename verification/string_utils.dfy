/** PMAT's `StringUtils`: joining, word capitalisation, camel-case splitting, repetition and
    the token closeness score used to guess an application from a file name. Case mapping
    is ASCII only, as everywhere in the model. */
module StringUtils {
  import opened Wrappers
  import JavaText

  // ---------------------------------------------------------------------------
  // joinStrings
  // ---------------------------------------------------------------------------

  /** `joinStrings`: the builder loop that writes `delim` before every word but the first.
      It computes the delimiter-between-items join. */
  method JoinStrings(words: seq<string>, delim: string) returns (r: string)
    ensures r == JavaText.Join(words, delim)
  {
    r := [];
    var first := true;
    var i := 0;
    while i < |words|
      invariant 0 <= i <= |words|
      invariant first <==> i == 0
      invariant r == JavaText.Join(words[..i], delim)
    {
      if !first {
        r := r + delim;
      } else {
        first := false;
      }
      r := r + words[i];
      if i > 0 {
        JavaText.JoinAppend(words[..i], words[i], delim);
      }
      assert words[..i + 1] == words[..i] + [words[i]];
      i := i + 1;
    }
    assert words[..i] == words;
  }

  /** The join has the delimiter only between items: one word gives itself, none gives
      the empty string, and a longer list is the first word, the delimiter, and the join
      of the rest. */
  lemma JoinShape(words: seq<string>, delim: string)
    ensures words == [] ==> JavaText.Join(words, delim) == []
    ensures |words| == 1 ==> JavaText.Join(words, delim) == words[0]
    ensures |words| > 1 ==> JavaText.Join(words, delim) == words[0] + delim + JavaText.Join(words[1..], delim)
  {
  }

  /** Splitting a join on its one-character delimiter gives the words back. */
  lemma JoinSplits(words: seq<string>, d: char)
    requires words != [] && forall k :: 0 <= k < |words| ==> d !in words[k]
    ensures JavaText.Pieces(JavaText.Join(words, [d]), {d}) == words
  {
    assert forall k :: 0 <= k < |words| ==> JavaText.NoneIn(words[k], {d});
    JavaText.PiecesOfJoin(words, d, {d});
  }

  // ---------------------------------------------------------------------------
  // capitaliseWords
  // ---------------------------------------------------------------------------

  /** The words of `text`: `split(" ")` with the empty pieces skipped. */
  function Words(text: string): (r: seq<string>)
    ensures forall k :: 0 <= k < |r| ==> r[k] != [] && ' ' !in r[k]
  {
    var ws := JavaText.Filter(JavaText.Split(text, {' '}));
    assert forall k :: 0 <= k < |ws| ==> ws[k] in JavaText.Split(text, {' '});
    assert forall k :: 0 <= k < |ws| ==> JavaText.NoneIn(ws[k], {' '});
    ws
  }

  /** A word with its first letter upper-cased. */
  function Capitalise(w: string): (r: string)
    requires w != []
    ensures |r| == |w| && r[1..] == w[1..]
    ensures r[0] == JavaText.ToUpperChar(w[0])
  {
    [JavaText.ToUpperChar(w[0])] + w[1..]
  }

  /** Every word capitalised. */
  function CapitaliseAll(ws: seq<string>): (r: seq<string>)
    requires forall k :: 0 <= k < |ws| ==> ws[k] != []
    ensures |r| == |ws|
    ensures forall k :: 0 <= k < |ws| ==> r[k] == Capitalise(ws[k])
  {
    seq(|ws|, k requires 0 <= k < |ws| => Capitalise(ws[k]))
  }

  /** `capitaliseWords`: the non-empty space-separated words, each capitalised, joined
      again with single spaces. */
  function CapitaliseWords(text: string): (r: string)
    ensures Words(text) == [] ==> r == []
    ensures ' ' !in text && text != [] ==> r == Capitalise(text)
  {
    var ws := Words(text);
    assert ' ' !in text ==> JavaText.NoneIn(text, {' '});
    JavaText.Join(CapitaliseAll(ws), " ")
  }

  /** Words that are non-empty and space-free are the words of their join. */
  lemma {:induction false} WordsOfJoin(ws: seq<string>)
    requires forall k :: 0 <= k < |ws| ==> ws[k] != [] && ' ' !in ws[k]
    ensures Words(JavaText.Join(ws, " ")) == ws
  {
    if ws == [] {
      assert JavaText.NoneIn([], {' '});
      assert JavaText.Split([], {' '}) == [[]];
    } else {
      assert forall k :: 0 <= k < |ws| ==> JavaText.NoneIn(ws[k], {' '});
      JavaText.SplitOfJoin(ws, ' ', {' '});
      FilterKeeps(ws);
    }
  }

  /** Filtering a list without empty items leaves it unchanged. */
  lemma {:induction false} FilterKeeps(ws: seq<string>)
    requires forall k :: 0 <= k < |ws| ==> ws[k] != []
    ensures JavaText.Filter(ws) == ws
    decreases |ws|
  {
    if ws != [] {
      var init := ws[..|ws| - 1];
      FilterKeeps(init);
      assert init + [ws[|ws| - 1]] == ws;
    }
  }

  /** The words of the result are exactly the capitalised words of the input, so the
      result has single spaces only and no leading or trailing space. */
  lemma CapitaliseWordsWords(text: string)
    ensures Words(CapitaliseWords(text)) == CapitaliseAll(Words(text))
  {
    var cs := CapitaliseAll(Words(text));
    assert forall k :: 0 <= k < |cs| ==> cs[k] != [] && ' ' !in cs[k] by {
      forall k | 0 <= k < |cs|
        ensures cs[k] != [] && ' ' !in cs[k]
      {
        var w := Words(text)[k];
        assert cs[k] == [JavaText.ToUpperChar(w[0])] + w[1..];
        assert ' ' !in w[1..];
      }
    }
    WordsOfJoin(cs);
  }

  /** Capitalising twice is capitalising once. */
  lemma CapitaliseWordsIdempotent(text: string)
    ensures CapitaliseWords(CapitaliseWords(text)) == CapitaliseWords(text)
  {
    var ws := Words(text);
    CapitaliseWordsWords(text);
    var cs := CapitaliseAll(ws);
    assert CapitaliseAll(cs) == cs by {
      forall k | 0 <= k < |cs|
        ensures Capitalise(cs[k]) == cs[k]
      {
        assert JavaText.ToUpperChar(JavaText.ToUpperChar(ws[k][0])) == JavaText.ToUpperChar(ws[k][0]);
      }
    }
  }

  // ---------------------------------------------------------------------------
  // normaliseCamelCase
  // ---------------------------------------------------------------------------

  /** The scanning loop of `normaliseCamelCase`: an upper-case character closes the current
      token when that token ends in a character that is not upper case. */
  function CamelLoop(w: string, k: nat, token: string, tokens: seq<string>): (r: seq<string>)
    requires k <= |w|
    decreases |w| - k
  {
    if k == |w| then (if token != [] then tokens + [token] else tokens)
    else if JavaText.IsUpper(w[k]) && token != [] && !JavaText.IsUpper(token[|token| - 1]) then
      CamelLoop(w, k + 1, [w[k]], tokens + [token])
    else
      CamelLoop(w, k + 1, token + [w[k]], tokens)
  }

  /** The camel-case tokens of a word, before capitalisation. */
  function CamelTokens(w: string): seq<string> {
    CamelLoop(w, 0, [], [])
  }

  /** An upper-case character right after one that is not: where a new token starts. */
  predicate Break(a: char, b: char) { JavaText.IsUpper(b) && !JavaText.IsUpper(a) }

  /** A token holds no break inside it. */
  predicate NoBreak(t: string) { forall j :: 0 < j < |t| ==> !Break(t[j - 1], t[j]) }

  /** The tokens concatenated. */
  function Concat(ts: seq<string>): string {
    if ts == [] then [] else Concat(ts[..|ts| - 1]) + ts[|ts| - 1]
  }

  /** Two tokens meet at a break: the first ends in a character that is not upper case and
      the second starts with an upper-case one. */
  predicate Meets(a: string, b: string) { a != [] && b != [] && Break(a[|a| - 1], b[0]) }

  /** Tokens that are non-empty, hold no break inside, and meet at breaks. */
  predicate Cuts(ts: seq<string>) {
    (forall i :: 0 <= i < |ts| ==> ts[i] != [] && NoBreak(ts[i]))
    && (forall i :: 0 < i < |ts| ==> Meets(ts[i - 1], ts[i]))
  }

  /** Cutting `w` exactly at its breaks: the tokens concatenate to `w`, are non-empty, hold
      no break inside, and every boundary between two tokens is a break. */
  predicate CamelCut(w: string, ts: seq<string>) {
    Concat(ts) == w && Cuts(ts)
  }

  /** Starting a new one-character token at a break keeps a cut. */
  lemma CutsExtend(ts: seq<string>, c: char)
    requires Cuts(ts) && ts != [] && Meets(ts[|ts| - 1], [c])
    ensures Cuts(ts + [[c]]) && Concat(ts + [[c]]) == Concat(ts) + [c]
  {
    var us := ts + [[c]];
    assert us[..|us| - 1] == ts;
    assert forall i :: 0 <= i < |ts| ==> us[i] == ts[i];
  }

  /** Growing the last token by a character that is not a break keeps a cut. */
  lemma CutsGrow(tokens: seq<string>, token: string, c: char)
    requires token != [] && Cuts(tokens + [token]) && !Break(token[|token| - 1], c)
    ensures Cuts(tokens + [token + [c]])
    ensures Concat(tokens + [token + [c]]) == Concat(tokens + [token]) + [c]
  {
    var ts := tokens + [token];
    var us := tokens + [token + [c]];
    assert ts[|ts| - 1] == token;
    assert us[..|us| - 1] == tokens && ts[..|ts| - 1] == tokens;
    assert forall i :: 0 <= i < |tokens| ==> us[i] == ts[i];
    var t := token + [c];
    assert NoBreak(t) by {
      assert forall j :: 0 <= j < |token| ==> t[j] == token[j];
    }
  }

  /** One step of the scan keeps the state a cut of the prefix read. */
  lemma {:induction false} CamelStep(w: string, k: nat, token: string, tokens: seq<string>)
    requires k < |w| && token != [] && CamelCut(w[..k], tokens + [token])
    ensures JavaText.IsUpper(w[k]) && !JavaText.IsUpper(token[|token| - 1]) ==>
              CamelCut(w[..k + 1], tokens + [token] + [[w[k]]])
    ensures !(JavaText.IsUpper(w[k]) && !JavaText.IsUpper(token[|token| - 1])) ==>
              CamelCut(w[..k + 1], tokens + [token + [w[k]]])
  {
    var ts := tokens + [token];
    assert w[..k + 1] == w[..k] + [w[k]];
    if JavaText.IsUpper(w[k]) && !JavaText.IsUpper(token[|token| - 1]) {
      assert ts[|ts| - 1] == token;
      CutsExtend(ts, w[k]);
    } else {
      CutsGrow(tokens, token, w[k]);
    }
  }

  /** The scan started in a valid state ends with a cut of the whole word. */
  lemma {:induction false} CamelLoopCut(w: string, k: nat, token: string, tokens: seq<string>)
    requires k <= |w| && token != [] && CamelCut(w[..k], tokens + [token])
    ensures CamelCut(w, CamelLoop(w, k, token, tokens))
    decreases |w| - k
  {
    if k == |w| {
      assert w[..k] == w;
    } else {
      CamelStep(w, k, token, tokens);
      if JavaText.IsUpper(w[k]) && !JavaText.IsUpper(token[|token| - 1]) {
        CamelLoopCut(w, k + 1, [w[k]], tokens + [token]);
      } else {
        CamelLoopCut(w, k + 1, token + [w[k]], tokens);
      }
    }
  }

  /** `normaliseCamelCase` cuts a word exactly at its breaks: an upper-case letter after a
      character that is not upper case starts a new token, and nothing else does. */
  lemma CamelTokensCut(w: string)
    ensures CamelCut(w, CamelTokens(w))
  {
    if w == [] {
      assert CamelTokens(w) == [];
    } else {
      assert [] + [w[0]] == [w[0]];
      assert CamelLoop(w, 0, [], []) == CamelLoop(w, 1, [w[0]], []);
      assert Concat([[w[0]]]) == [w[0]] by {
        assert [[w[0]]][..0] == [];
      }
      assert w[..1] == [w[0]];
      CamelLoopCut(w, 1, [w[0]], []);
    }
  }

  /** A word with no break, such as an all-capitals word, is a single token. */
  lemma {:induction false} CamelNoBreakWhole(w: string, k: nat, token: string)
    requires 0 < k <= |w| && token == w[..k] && NoBreak(w)
    ensures CamelLoop(w, k, token, []) == [w]
    decreases |w| - k
  {
    if k == |w| {
      assert token == w;
    } else {
      assert token[|token| - 1] == w[k - 1];
      assert w[..k + 1] == token + [w[k]];
      CamelNoBreakWhole(w, k + 1, token + [w[k]]);
    }
  }

  /** `normaliseCamelCase(word)`: the camel-case tokens, each passed through
      `capitaliseWords`, joined with single spaces. */
  function NormaliseCamelCase(word: string): (r: string)
    ensures word == [] ==> r == []
  {
    var ts := CamelTokens(word);
    assert word == [] ==> ts == [];
    JavaText.Join(seq(|ts|, i requires 0 <= i < |ts| => CapitaliseWords(ts[i])), " ")
  }

  /** The list form of `normaliseCamelCase`: each word normalised, in order. */
  function NormaliseCamelCaseAll(words: seq<string>): (r: seq<string>)
    ensures |r| == |words|
    ensures forall i :: 0 <= i < |words| ==> r[i] == NormaliseCamelCase(words[i])
  {
    seq(|words|, i requires 0 <= i < |words| => NormaliseCamelCase(words[i]))
  }

  /** A word without a break, all capitals for one, comes out as one token capitalised:
      `"WORD"` stays `"WORD"` and `"testing"` becomes `"Testing"`. */
  lemma NormaliseUnbroken(word: string)
    requires word != [] && ' ' !in word && NoBreak(word)
    ensures NormaliseCamelCase(word) == Capitalise(word)
  {
    assert [] + [word[0]] == [word[0]];
    assert CamelLoop(word, 0, [], []) == CamelLoop(word, 1, [word[0]], []);
    assert word[..1] == [word[0]];
    CamelNoBreakWhole(word, 1, [word[0]]);
    var ts := CamelTokens(word);
    assert seq(|ts|, i requires 0 <= i < |ts| => CapitaliseWords(ts[i])) == [CapitaliseWords(word)];
  }

  /** An upper-case word is left whole and unchanged. */
  lemma NormaliseAllCaps(word: string)
    requires word != [] && forall j :: 0 <= j < |word| ==> JavaText.IsUpper(word[j])
    ensures NormaliseCamelCase(word) == word
  {
    assert forall j :: 0 <= j < |word| ==> word[j] != ' ';
    NormaliseUnbroken(word);
  }

  // ---------------------------------------------------------------------------
  // repeatChar and closeness
  // ---------------------------------------------------------------------------

  /** `repeatChar(c, n)`: n copies of c; a negative count is an `IllegalArgumentException`. */
  function RepeatChar(c: char, n: int): (r: Result<string>)
    ensures r.Success? <==> n >= 0
    ensures r.Success? ==> |r.value| == n && forall i :: 0 <= i < n ==> r.value[i] == c
  {
    if n < 0 then Failure("repeatChar given negative n") else Success(seq(n, _ => c))
  }

  /** `wordCloseness`: the length of the longest common prefix. */
  function WordCloseness(a: string, b: string): (n: nat)
    ensures n <= |a| && n <= |b| && a[..n] == b[..n]
    ensures n < |a| && n < |b| ==> a[n] != b[n]
  {
    if a != [] && b != [] && a[0] == b[0] then
      var n := 1 + WordCloseness(a[1..], b[1..]);
      assert a[..n] == [a[0]] + a[1..][..n - 1];
      assert b[..n] == [b[0]] + b[1..][..n - 1];
      n
    else 0
  }

  /** The common prefix length does not depend on the order of the words. */
  lemma {:induction false} WordClosenessSymmetric(a: string, b: string)
    ensures WordCloseness(a, b) == WordCloseness(b, a)
  {
    if a != [] && b != [] && a[0] == b[0] {
      WordClosenessSymmetric(a[1..], b[1..]);
    }
  }

  /** The score of one token pair: the larger of the two prefix lengths, lower-cased. */
  function PairScore(a: string, b: string): nat {
    var x := WordCloseness(JavaText.ToLower(a), JavaText.ToLower(b));
    var y := WordCloseness(JavaText.ToLower(b), JavaText.ToLower(a));
    if x >= y then x else y
  }

  /** The inner loop: the token `a` scored against every token of `bs`. */
  function RowScore(a: string, bs: seq<string>): nat
    decreases |bs|
  {
    if bs == [] then 0 else RowScore(a, bs[..|bs| - 1]) + PairScore(a, bs[|bs| - 1])
  }

  /** The outer loop: every token of `as_` scored against every token of `bs`. */
  function TableScore(as_: seq<string>, bs: seq<string>): nat
    decreases |as_|
  {
    if as_ == [] then 0 else TableScore(as_[..|as_| - 1], bs) + RowScore(as_[|as_| - 1], bs)
  }

  /** The tokens `closeness` compares: the split on space, `_` and `-`. */
  function ClosenessTokens(s: string): seq<string> {
    JavaText.Split(s, {' ', '_', '-'})
  }

  /** `closeness`: the summed pair scores over all token pairs. */
  function Closeness(wordA: string, wordB: string): nat {
    TableScore(ClosenessTokens(wordA), ClosenessTokens(wordB))
  }

  /** The pair score is the lower-cased common prefix length, in either order. */
  lemma PairScoreSymmetric(a: string, b: string)
    ensures PairScore(a, b) == PairScore(b, a)
    ensures PairScore(a, b) == WordCloseness(JavaText.ToLower(a), JavaText.ToLower(b))
  {
    WordClosenessSymmetric(JavaText.ToLower(a), JavaText.ToLower(b));
  }

  /** The column sum: every token of `as_` scored against `b`. */
  function ColumnScore(as_: seq<string>, b: string): nat
    decreases |as_|
  {
    if as_ == [] then 0 else ColumnScore(as_[..|as_| - 1], b) + PairScore(as_[|as_| - 1], b)
  }

  /** Adding one more column to the table adds that column's sum. */
  lemma {:induction false} TableScoreColumn(as_: seq<string>, bs: seq<string>, b: string)
    ensures TableScore(as_, bs + [b]) == TableScore(as_, bs) + ColumnScore(as_, b)
    decreases |as_|
  {
    if as_ != [] {
      TableScoreColumn(as_[..|as_| - 1], bs, b);
      assert (bs + [b])[..|bs|] == bs;
    }
  }

  /** A column sum of one table is the row sum of the swapped table. */
  lemma {:induction false} ColumnIsRow(as_: seq<string>, b: string)
    ensures ColumnScore(as_, b) == RowScore(b, as_)
    decreases |as_|
  {
    if as_ != [] {
      ColumnIsRow(as_[..|as_| - 1], b);
      PairScoreSymmetric(as_[|as_| - 1], b);
    }
  }

  /** Summing the table by rows or by columns gives the same total. */
  lemma {:induction false} TableScoreSwap(as_: seq<string>, bs: seq<string>)
    ensures TableScore(as_, bs) == TableScore(bs, as_)
    decreases |bs|
  {
    if bs == [] {
      assert TableScore(as_, []) == 0 by { EmptyColumns(as_); }
    } else {
      var init := bs[..|bs| - 1];
      var b := bs[|bs| - 1];
      assert init + [b] == bs;
      TableScoreColumn(as_, init, b);
      TableScoreSwap(as_, init);
      ColumnIsRow(as_, b);
    }
  }

  /** A table with no columns scores nothing. */
  lemma {:induction false} EmptyColumns(as_: seq<string>)
    ensures TableScore(as_, []) == 0
    decreases |as_|
  {
    if as_ != [] {
      EmptyColumns(as_[..|as_| - 1]);
    }
  }

  /** `closeness` is symmetric. */
  lemma ClosenessSymmetric(wordA: string, wordB: string)
    ensures Closeness(wordA, wordB) == Closeness(wordB, wordA)
  {
    TableScoreSwap(ClosenessTokens(wordA), ClosenessTokens(wordB));
  }

  /** A word of one token scores its own length against itself. */
  lemma ClosenessOneToken(w: string)
    requires JavaText.NoneIn(w, {' ', '_', '-'})
    ensures Closeness(w, w) == |w|
  {
    var l := JavaText.ToLower(w);
    assert ClosenessTokens(w) == [w];
    assert RowScore(w, [w]) == PairScore(w, w) by {
      assert [w][..0] == [];
    }
    PairScoreSymmetric(w, w);
    assert WordCloseness(l, l) == |l|;
    assert TableScore([w], [w]) == TableScore([], [w]) + RowScore(w, [w]) by {
      assert [w][..0] == [];
    }
  }

  /** Tokens whose first letters differ, ignoring case, contribute nothing. */
  lemma PairScoreZero(a: string, b: string)
    requires a != [] && b != [] && JavaText.ToLowerChar(a[0]) != JavaText.ToLowerChar(b[0])
    ensures PairScore(a, b) == 0
  {
    PairScoreSymmetric(a, b);
  }
}
