/** The text front end of src/language.rs: punctuation cleaning, whitespace
    splitting, tokenisation into first-occurrence word ids, one-hot encoding,
    and the bookkeeping of an embedding builder. */
module Language {
  import opened Results

  // ---------------------------------------------------------------------
  // clean
  // ---------------------------------------------------------------------

  /** Characters matched by the character class `[.,:;?!-"]`. Inside the class,
      `!-"` is the range from `!` to `"`, so the hyphen itself is not in it. */
  predicate IsStripped(c: char)
  {
    c == '.' || c == ',' || c == ':' || c == ';' || c == '?' || ('!' <= c <= '"')
  }

  predicate IsUpperAscii(c: char)
  {
    'A' <= c <= 'Z'
  }

  function LowerChar(c: char): char
  {
    if IsUpperAscii(c) then (c as int + 32) as char else c
  }

  /** First pass: delete every character of the class. */
  function StripPunctuation(s: string): (r: string)
    ensures forall k :: 0 <= k < |r| ==> !IsStripped(r[k])
    ensures |r| <= |s|
  {
    if s == [] then []
    else if IsStripped(s[0]) then StripPunctuation(s[1..])
    else [s[0]] + StripPunctuation(s[1..])
  }

  /** Second pass: each remaining hyphen becomes a space. */
  function HyphensToSpaces(s: string): (r: string)
    ensures |r| == |s|
    ensures forall k :: 0 <= k < |r| ==> r[k] != '-'
    ensures forall k :: 0 <= k < |s| && s[k] != '-' ==> r[k] == s[k]
  {
    seq(|s|, k requires 0 <= k < |s| => if s[k] == '-' then ' ' else s[k])
  }

  /** Third pass: lower-casing, modelled on ASCII letters. */
  function Lowercase(s: string): (r: string)
    ensures |r| == |s|
    ensures forall k :: 0 <= k < |r| ==> !IsUpperAscii(r[k])
    ensures forall k :: 0 <= k < |s| && !IsUpperAscii(s[k]) ==> r[k] == s[k]
  {
    seq(|s|, k requires 0 <= k < |s| => LowerChar(s[k]))
  }

  /** `clean`: delete the punctuation class, turn hyphens into spaces, lower-case. */
  function Clean(s: string): (r: string)
    ensures |r| <= |s|
  {
    Lowercase(HyphensToSpaces(StripPunctuation(s)))
  }

  /** A cleaned string holds no character of the class, no hyphen and no
      upper-case ASCII letter. */
  predicate IsClean(s: string)
  {
    forall k :: 0 <= k < |s| ==> !IsStripped(s[k]) && s[k] != '-' && !IsUpperAscii(s[k])
  }

  lemma CleanIsClean(s: string)
    ensures IsClean(Clean(s))
  {
    var t := StripPunctuation(s);
    var h := HyphensToSpaces(t);
    forall k | 0 <= k < |h|
      ensures !IsStripped(h[k]) && h[k] != '-'
    {
      assert !IsStripped(t[k]);
    }
  }

  /** A string with nothing to strip comes through the first pass unchanged. */
  lemma {:induction false} StripNothing(s: string)
    requires forall k :: 0 <= k < |s| ==> !IsStripped(s[k])
    ensures StripPunctuation(s) == s
  {
    if s != [] {
      StripNothing(s[1..]);
      assert [s[0]] + s[1..] == s;
    }
  }

  /** Cleaning twice is cleaning once. */
  lemma {:induction false} CleanIdempotent(s: string)
    ensures Clean(Clean(s)) == Clean(s)
  {
    var c := Clean(s);
    CleanIsClean(s);
    StripNothing(c);
    assert HyphensToSpaces(c) == c;
    assert Lowercase(c) == c;
  }

  /** Cleaning works character by character, so it distributes over concatenation. */
  lemma {:induction false} StripAppend(a: string, b: string)
    ensures StripPunctuation(a + b) == StripPunctuation(a) + StripPunctuation(b)
  {
    if a == [] {
      assert a + b == b;
    } else {
      assert (a + b)[1..] == a[1..] + b;
      StripAppend(a[1..], b);
    }
  }

  lemma CleanAppend(a: string, b: string)
    ensures Clean(a + b) == Clean(a) + Clean(b)
  {
    StripAppend(a, b);
  }

  /** On text without punctuation, cleaning keeps the length, turns hyphens
      into spaces and lower-cases the rest in place. */
  lemma CleanWithoutPunctuation(s: string)
    requires forall k :: 0 <= k < |s| ==> !IsStripped(s[k])
    ensures |Clean(s)| == |s|
    ensures forall k :: 0 <= k < |s| ==> Clean(s)[k] == (if s[k] == '-' then ' ' else LowerChar(s[k]))
  {
    StripNothing(s);
  }

  /** A worked example: the `!` is deleted while the hyphen becomes a space. */
  lemma CleanExample()
    ensures Clean("Re-Do!") == "re do"
  {
    CleanAppend("Re-Do", "!");
    CleanWithoutPunctuation("Re-Do");
    assert Clean("!") == [];
  }

  // ---------------------------------------------------------------------
  // split_whitespace
  // ---------------------------------------------------------------------

  /** Unicode White_Space, the set `char::is_whitespace` tests. */
  predicate IsWhitespace(c: char)
  {
    || ('\t' <= c <= '\r') || c == ' ' || c == '\U{0085}' || c == '\U{00A0}'
    || c == '\U{1680}' || ('\U{2000}' <= c <= '\U{200A}') || c == '\U{2028}'
    || c == '\U{2029}' || c == '\U{202F}' || c == '\U{205F}' || c == '\U{3000}'
  }

  /** A word: non-empty and free of whitespace. */
  predicate IsWord(w: string)
  {
    |w| > 0 && forall k :: 0 <= k < |w| ==> !IsWhitespace(w[k])
  }

  /** Length of the leading run of non-whitespace characters. */
  function WordEnd(s: string): (n: nat)
    ensures n <= |s|
    ensures forall k :: 0 <= k < n ==> !IsWhitespace(s[k])
    ensures n < |s| ==> IsWhitespace(s[n])
  {
    if s == [] || IsWhitespace(s[0]) then 0 else 1 + WordEnd(s[1..])
  }

  /** `split_whitespace`: the maximal runs of non-whitespace characters, in order. */
  function Words(s: string): (ws: seq<string>)
    ensures forall k :: 0 <= k < |ws| ==> IsWord(ws[k])
    decreases |s|
  {
    if s == [] then []
    else if IsWhitespace(s[0]) then Words(s[1..])
    else
      var n := WordEnd(s);
      [s[..n]] + Words(s[n..])
  }

  /** Words joined by single spaces. */
  function JoinWords(ws: seq<string>): string
  {
    if ws == [] then [] else if |ws| == 1 then ws[0] else ws[0] + " " + JoinWords(ws[1..])
  }

  lemma {:induction false} WordsAfterSpace(s: string)
    ensures Words(" " + s) == Words(s)
  {
    assert (" " + s)[1..] == s;
  }

  lemma {:induction false} WordEndOfWord(w: string, rest: string)
    requires IsWord(w)
    requires rest == [] || IsWhitespace(rest[0])
    ensures WordEnd(w + rest) == |w|
  {
    if |w| > 1 {
      assert (w + rest)[1..] == w[1..] + rest;
      WordEndOfWord(w[1..], rest);
    } else {
      assert (w + rest)[1..] == rest;
    }
  }

  /** Splitting undoes joining: the words of a space-joined list are the list. */
  lemma {:induction false} WordsOfJoin(ws: seq<string>)
    requires forall k :: 0 <= k < |ws| ==> IsWord(ws[k])
    ensures Words(JoinWords(ws)) == ws
  {
    if ws == [] {
    } else if |ws| == 1 {
      var w := ws[0];
      WordEndOfWord(w, []);
      assert w + [] == w;
      assert w[..|w|] == w;
      assert w[|w|..] == [];
    } else {
      var w, rest := ws[0], JoinWords(ws[1..]);
      var s := w + " " + rest;
      assert s == w + (" " + rest);
      WordEndOfWord(w, " " + rest);
      assert s[..|w|] == w;
      assert s[|w|..] == " " + rest;
      WordsAfterSpace(rest);
      WordsOfJoin(ws[1..]);
      assert ws == [w] + ws[1..];
    }
  }

  // ---------------------------------------------------------------------
  // tokenize
  // ---------------------------------------------------------------------

  /** The two results of `tokenize`: the id of every word and the word-to-id map. */
  datatype Tokenization = Tokenization(nums: seq<nat>, vocab: map<string, nat>)

  /** The state `tokenize`'s loop reaches after the given words: an unseen
      word gets the current map size as its id, a seen word reuses its id. */
  function Tokens(words: seq<string>): (t: Tokenization)
    ensures |t.nums| == |words|
  {
    if words == [] then Tokenization([], map[])
    else
      var t := Tokens(words[..|words| - 1]);
      var w := words[|words| - 1];
      if w in t.vocab then Tokenization(t.nums + [t.vocab[w]], t.vocab)
      else Tokenization(t.nums + [|t.vocab|], t.vocab[w := |t.vocab|])
  }

  /** The distinct words, in order of first occurrence: a reference
      definition of the vocabulary that is independent of the map. */
  function Distinct(words: seq<string>): seq<string>
  {
    if words == [] then []
    else
      var d := Distinct(words[..|words| - 1]);
      var w := words[|words| - 1];
      if w in d then d else d + [w]
  }

  /** What the loop keeps: one id per word, each word's id is its entry in
      the map, the map's keys are the words seen, and the word with id `k`
      is the `k`-th distinct word. */
  ghost predicate TokensInvariant(words: seq<string>, t: Tokenization, d: seq<string>)
  {
    && |t.nums| == |words|
    && (forall i :: 0 <= i < |words| ==> words[i] in t.vocab && t.nums[i] == t.vocab[words[i]])
    && (forall w :: w in t.vocab <==> w in words)
    && (forall w :: w in d <==> w in words)
    && |d| == |t.vocab|
    && (forall k :: 0 <= k < |d| ==> d[k] in t.vocab && t.vocab[d[k]] == k)
  }

  lemma {:induction false} TokensKeepInvariant(words: seq<string>)
    ensures TokensInvariant(words, Tokens(words), Distinct(words))
  {
    if words != [] {
      var pre := words[..|words| - 1];
      var w := words[|words| - 1];
      TokensKeepInvariant(pre);
      var t, d := Tokens(pre), Distinct(pre);
      assert words == pre + [w];
      if w !in t.vocab {
        assert w !in d;
        var t' := Tokens(words);
        assert t'.vocab == t.vocab[w := |t.vocab|];
        forall k | 0 <= k < |d|
          ensures d[k] != w
        {
          assert d[k] in t.vocab;
        }
      }
    }
  }

  /** The vocabulary map is injective and its ids are exactly `0 .. |vocab| - 1`,
      the `k`-th id going to the `k`-th distinct word; every emitted id is
      below the vocabulary size and decodes back to its word. */
  lemma TokensProperties(words: seq<string>)
    ensures var t, d := Tokens(words), Distinct(words);
      && |t.nums| == |words|
      && |d| == |t.vocab|
      && (forall w :: w in t.vocab ==> t.vocab[w] < |t.vocab| && d[t.vocab[w]] == w)
      && (forall w1, w2 :: w1 in t.vocab && w2 in t.vocab && t.vocab[w1] == t.vocab[w2] ==> w1 == w2)
      && (forall k :: 0 <= k < |t.vocab| ==> d[k] in t.vocab && t.vocab[d[k]] == k)
      && (forall i :: 0 <= i < |words| ==> t.nums[i] < |t.vocab| && d[t.nums[i]] == words[i])
  {
    var t, d := Tokens(words), Distinct(words);
    TokensKeepInvariant(words);
    forall w | w in t.vocab
      ensures t.vocab[w] < |t.vocab| && d[t.vocab[w]] == w
    {
      assert w in d;
      var k :| 0 <= k < |d| && d[k] == w;
    }
  }

  /** Repeated words share an id; distinct words get distinct ids. */
  lemma SameWordSameId(words: seq<string>, i: nat, j: nat)
    requires i < |words| && j < |words|
    ensures |Tokens(words).nums| == |words|
    ensures Tokens(words).nums[i] == Tokens(words).nums[j] <==> words[i] == words[j]
  {
    TokensProperties(words);
  }

  /** The ids emitted for a prefix are a prefix of the ids emitted for the whole. */
  lemma {:induction false} TokensPrefix(words: seq<string>, n: nat)
    requires n <= |words|
    ensures Tokens(words[..n]).nums == Tokens(words).nums[..n]
    decreases |words|
  {
    if n == |words| {
      assert words[..n] == words;
    } else {
      var pre := words[..|words| - 1];
      assert pre[..n] == words[..n];
      TokensPrefix(pre, n);
      assert Tokens(words).nums[..|pre|] == Tokens(pre).nums;
    }
  }

  /** A word not seen before gets the current vocabulary size as its id. */
  lemma NewWordGetsNextId(words: seq<string>, i: nat)
    requires i < |words| && words[i] !in words[..i]
    ensures Tokens(words).nums[i] == |Tokens(words[..i]).vocab|
  {
    TokensPrefix(words, i + 1);
    var pre := words[..i + 1];
    assert pre[..|pre| - 1] == words[..i];
    TokensKeepInvariant(words[..i]);
  }

  /** `tokenize`: split on whitespace, then walk the words once, looking each up
      in the growing map. */
  method Tokenize(input: string) returns (nums: seq<nat>, vocab: map<string, nat>)
    ensures Tokenization(nums, vocab) == Tokens(Words(input))
    ensures |nums| == |Words(input)|
    ensures forall i :: 0 <= i < |nums| ==> Words(input)[i] in vocab && nums[i] == vocab[Words(input)[i]]
    ensures forall i :: 0 <= i < |nums| ==> nums[i] < |vocab|
  {
    var words := Words(input);
    nums, vocab := [], map[];
    var i := 0;
    while i < |words|
      invariant 0 <= i <= |words|
      invariant Tokenization(nums, vocab) == Tokens(words[..i])
    {
      var word := words[i];
      assert words[..i + 1][..i] == words[..i];
      if word in vocab {
        nums := nums + [vocab[word]];
      } else {
        var token := |vocab|;
        nums := nums + [token];
        vocab := vocab[word := token];
      }
      i := i + 1;
    }
    assert words[..i] == words;
    TokensProperties(words);
    TokensKeepInvariant(words);
  }

  // ---------------------------------------------------------------------
  // EmbeddingBuilder
  // ---------------------------------------------------------------------

  /** `v` is the one-hot vector of length `n` for id `k`. */
  predicate IsOneHot(v: seq<real>, n: nat, k: nat)
  {
    |v| == n && forall i :: 0 <= i < n ==> v[i] == (if i == k then 1.0 else 0.0)
  }

  class EmbeddingBuilder {
    var vocab: map<string, nat>
    var vocabSize: nat
    var codex: seq<nat>
    var codexSize: nat
    var window: nat

    /** The cached sizes agree with the collections, and every word id in the
        codex is a valid one-hot position. */
    ghost predicate Valid()
      reads this
    {
      && vocabSize == |vocab|
      && codexSize == |codex|
      && forall i :: 0 <= i < |codex| ==> codex[i] < vocabSize
    }

    /** `new`: tokenise the cleaned input and start with a window of 1. */
    constructor (input: string)
      ensures Valid()
      ensures Tokenization(codex, vocab) == Tokens(Words(Clean(input)))
      ensures window == 1
    {
      var nums, vocabMap := Tokenize(Clean(input));
      vocab := vocabMap;
      vocabSize := |vocabMap|;
      codex := nums;
      codexSize := |nums|;
      window := 1;
    }

    /** `set_window`: only the window changes. */
    method SetWindow(w: nat)
      requires Valid()
      modifies this`window
      ensures Valid() && window == w
    {
      window := w;
    }

    /** `one_hot`: a zeroed vector of the vocabulary size with 1 at `num`;
        writing the slot panics when `num` is not below the vocabulary size. */
    method OneHot(num: nat) returns (r: Result<seq<real>>)
      ensures r.Ok? <==> num < vocabSize
      ensures r.Ok? ==> IsOneHot(r.value, vocabSize, num)
      ensures r.Err? ==> r.error == IndexOutOfBounds
    {
      if num >= vocabSize {
        return Err(IndexOutOfBounds);
      }
      var buffer := new real[vocabSize](_ => 0.0);
      buffer[num] := 1.0;
      r := Ok(buffer[..]);
    }

    /** `random_pairing` with its three random draws as parameters: `offset`
        from `1..=window`, `index` from `0..codexSize - offset` and the coin
        `forward`. The draws panic on an empty range; otherwise both codex
        reads are in bounds and the one-hot pair comes back in either order. */
    method RandomPairing(offset: nat, index: nat, forward: bool) returns (r: Result<(seq<real>, seq<real>)>)
      requires Valid()
      requires window > 0 ==> 1 <= offset <= window
      requires window > 0 && offset < codexSize ==> index < codexSize - offset
      ensures r.Ok? <==> window > 0 && offset < codexSize
      ensures r.Err? ==> r.error == EmptyRange
      ensures r.Ok? ==> index + offset < |codex|
      ensures r.Ok? && forward ==>
        IsOneHot(r.value.0, vocabSize, codex[index]) && IsOneHot(r.value.1, vocabSize, codex[index + offset])
      ensures r.Ok? && !forward ==>
        IsOneHot(r.value.0, vocabSize, codex[index + offset]) && IsOneHot(r.value.1, vocabSize, codex[index])
    {
      if window == 0 || codexSize <= offset {
        return Err(EmptyRange);
      }
      var num1, num2 := codex[index + offset], codex[index];
      if forward {
        num1, num2 := codex[index], codex[index + offset];
      }
      var first := OneHot(num1);
      var second := OneHot(num2);
      r := Ok((first.value, second.value));
    }
  }
}
