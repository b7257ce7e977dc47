/** The NGROK_TOKEN check of ssh_to_pipeline(): `len(token.strip().split()) != 1` rejects the
    token. Python's `str.strip()` and `str.split()` (with no argument) are modelled over the
    characters for which `str.isspace()` holds. */
module Token {

  /** Python's `str.isspace()` for one character: ASCII tab to carriage return, the
      information separators 0x1C-0x1F, space, NEL, no-break space, and the Unicode spaces. */
  predicate IsSpace(c: char) {
    var n := c as int;
    (9 <= n <= 13) || (28 <= n <= 32) || n == 0x85 || n == 0xA0 || n == 0x1680
    || (0x2000 <= n <= 0x200A) || n == 0x2028 || n == 0x2029 || n == 0x202F
    || n == 0x205F || n == 0x3000
  }

  predicate NoSpace(s: string) {
    forall i :: 0 <= i < |s| ==> !IsSpace(s[i])
  }

  predicate AllSpace(s: string) {
    forall i :: 0 <= i < |s| ==> IsSpace(s[i])
  }

  /** `s.lstrip()`: drops the leading whitespace and nothing else. */
  function TrimStart(s: string): (r: string)
    ensures |r| <= |s| && r == s[|s| - |r|..]
    ensures AllSpace(s[..|s| - |r|])
    ensures r == [] || !IsSpace(r[0])
    decreases |s|
  {
    if s != [] && IsSpace(s[0]) then
      var r := TrimStart(s[1..]);
      assert s[..|s| - |r|] == [s[0]] + s[1..][..|s| - 1 - |r|];
      r
    else s
  }

  /** `s.rstrip()`: drops the trailing whitespace and nothing else. */
  function TrimEnd(s: string): (r: string)
    ensures |r| <= |s| && r == s[..|r|]
    ensures AllSpace(s[|r|..])
    ensures r == [] || !IsSpace(r[|r| - 1])
    decreases |s|
  {
    if s != [] && IsSpace(s[|s| - 1]) then
      var r := TrimEnd(s[..|s| - 1]);
      assert s[|r|..] == s[..|s| - 1][|r|..] + [s[|s| - 1]];
      r
    else s
  }

  /** `s.strip()`: empty exactly for blank text, otherwise bounded by non-whitespace. */
  function Strip(s: string): (r: string)
    ensures r == [] <==> AllSpace(s)
    ensures r != [] ==> !IsSpace(r[0]) && !IsSpace(r[|r| - 1])
  {
    var t := TrimStart(s);
    var r := TrimEnd(t);
    assert t != [] ==> t[0] == s[|s| - |t|];
    assert r == [] ==> t == [];
    assert t == [] ==> s[..|s| - |t|] == s;
    r
  }

  /** Length of the run of non-whitespace characters that `s` starts with. */
  function WordLength(s: string): (n: nat)
    ensures n <= |s| && NoSpace(s[..n])
    ensures n < |s| ==> IsSpace(s[n])
    decreases |s|
  {
    if s == [] || IsSpace(s[0]) then 0 else 1 + WordLength(s[1..])
  }

  /** `s.split()`: the maximal runs of non-whitespace characters, in order. */
  function Split(s: string): (words: seq<string>)
    ensures forall k :: 0 <= k < |words| ==> words[k] != [] && NoSpace(words[k])
    ensures words == [] <==> AllSpace(s)
    decreases |s|
  {
    if s == [] then []
    else if IsSpace(s[0]) then Split(s[1..])
    else
      var n := WordLength(s);
      [s[..n]] + Split(s[n..])
  }

  lemma {:induction false} SplitOfWord(s: string)
    requires s != [] && NoSpace(s)
    ensures Split(s) == [s]
  {
    var n := WordLength(s);
    assert n == |s|;
    assert s[..n] == s && s[n..] == [];
    assert !IsSpace(s[0]);
  }

  lemma SplitAtWord(s: string)
    requires s != [] && !IsSpace(s[0])
    ensures Split(s) == [s[..WordLength(s)]] + Split(s[WordLength(s)..])
  {
  }

  /** Text that starts and ends with non-whitespace and has whitespace inside splits into at
      least two words. */
  lemma SplitInnerSpace(u: string)
    requires u != [] && !IsSpace(u[0]) && !IsSpace(u[|u| - 1]) && !NoSpace(u)
    ensures |Split(u)| >= 2
  {
    var n := WordLength(u);
    assert u[..|u|] == u;
    assert n < |u|;
    assert !AllSpace(u[n..]) by { assert u[n..][|u| - n - 1] == u[|u| - 1]; }
    SplitAtWord(u);
  }

  /** Stripped text splits into one word exactly when it is non-empty and has no whitespace. */
  lemma OneWordIff(u: string)
    requires u == [] || (!IsSpace(u[0]) && !IsSpace(u[|u| - 1]))
    ensures |Split(u)| == 1 <==> u != [] && NoSpace(u)
  {
    if u == [] {
      assert Split(u) == [];
    } else if NoSpace(u) {
      SplitOfWord(u);
    } else {
      SplitInnerSpace(u);
    }
  }

  /** The check at ssh_to_pipeline.py line 133: the token passes when it is one word, that is,
      exactly when, stripped, it is non-empty and has no inner whitespace. */
  predicate IsOneWord(token: string): (one: bool)
    ensures one <==> Strip(token) != [] && NoSpace(Strip(token))
  {
    var u := Strip(token);
    OneWordIff(u);
    |Split(u)| == 1
  }

  lemma {:induction false} TrimStartPadded(lead: string, x: string)
    requires AllSpace(lead) && (x == [] || !IsSpace(x[0]))
    ensures TrimStart(lead + x) == x
    decreases |lead|
  {
    if lead == [] {
      assert lead + x == x;
    } else {
      assert (lead + x)[0] == lead[0] && (lead + x)[1..] == lead[1..] + x;
      TrimStartPadded(lead[1..], x);
    }
  }

  lemma {:induction false} TrimEndPadded(x: string, trail: string)
    requires AllSpace(trail) && (x == [] || !IsSpace(x[|x| - 1]))
    ensures TrimEnd(x + trail) == x
    decreases |trail|
  {
    if trail == [] {
      assert x + trail == x;
    } else {
      var n := |trail| - 1;
      assert (x + trail)[|x + trail| - 1] == trail[n];
      assert (x + trail)[..|x + trail| - 1] == x + trail[..n];
      TrimEndPadded(x, trail[..n]);
    }
  }

  /** Stripping a word padded with whitespace on both sides gives back the word. */
  lemma StripPadded(lead: string, word: string, trail: string)
    requires AllSpace(lead) && AllSpace(trail)
    requires word != [] && !IsSpace(word[0]) && !IsSpace(word[|word| - 1])
    ensures Strip(lead + word + trail) == word
  {
    assert lead + word + trail == lead + (word + trail);
    assert (word + trail)[0] == word[0];
    TrimStartPadded(lead, word + trail);
    TrimEndPadded(word, trail);
  }

  /** Any whitespace-free word, with any whitespace around it, passes the check. */
  lemma PaddedWordIsOneWord(lead: string, word: string, trail: string)
    requires AllSpace(lead) && AllSpace(trail) && word != [] && NoSpace(word)
    ensures IsOneWord(lead + word + trail)
  {
    StripPadded(lead, word, trail);
    SplitOfWord(word);
  }

  /** Literal spellings the examples below rely on. They are proved here, apart, because in the
      examples' own context the solver spends far more on the same string equalities. */
  lemma Spelled()
    ensures "" + "abc" + "" == "abc"
    ensures " " + "abc" + " " == " abc "
    ensures "abc def"[3] == ' '
  {
  }

  /** A bare word passes the check. */
  lemma WordAccepted()
    ensures IsOneWord("abc")
  {
    assert NoSpace("abc");
    PaddedWordIsOneWord("", "abc", "");
    Spelled();
  }

  /** A word inside surrounding whitespace passes the check. */
  lemma PaddedWordAccepted()
    ensures IsOneWord(" abc ")
  {
    assert NoSpace("abc") && AllSpace(" ");
    PaddedWordIsOneWord(" ", "abc", " ");
    Spelled();
  }

  /** A token of two words fails the check. */
  lemma TwoWordsRejected()
    ensures !IsOneWord("abc def")
  {
    var two := "abc def";
    assert !IsSpace(two[0]) && !IsSpace(two[6]);
    StripPadded("", two, "");
    Spelled();
  }

  /** An empty or blank token fails the check. */
  lemma BlankRejected()
    ensures !IsOneWord("") && !IsOneWord("   ")
  {
    assert AllSpace("   ");
  }

  lemma {:induction false} WordLengthAppendSpace(a: string, w: string)
    requires AllSpace(w)
    ensures WordLength(a + w) == WordLength(a)
    decreases |a|
  {
    if a != [] {
      assert (a + w)[0] == a[0];
      assert (a + w)[1..] == a[1..] + w;
      WordLengthAppendSpace(a[1..], w);
    } else {
      assert a + w == w;
    }
  }

  /** Trailing whitespace never changes how text splits. */
  lemma {:induction false} SplitAppendSpace(a: string, w: string)
    requires AllSpace(w)
    ensures Split(a + w) == Split(a)
    decreases |a|
  {
    if a == [] {
      assert a + w == w;
    } else if IsSpace(a[0]) {
      assert (a + w)[0] == a[0];
      assert (a + w)[1..] == a[1..] + w;
      SplitAppendSpace(a[1..], w);
    } else {
      var n := WordLength(a);
      WordLengthAppendSpace(a, w);
      assert (a + w)[0] == a[0];
      assert (a + w)[..n] == a[..n];
      assert (a + w)[n..] == a[n..] + w;
      SplitAppendSpace(a[n..], w);
    }
  }

  /** Leading whitespace never changes how text splits. */
  lemma {:induction false} SplitTrimStart(s: string)
    ensures Split(TrimStart(s)) == Split(s)
    decreases |s|
  {
    if s != [] && IsSpace(s[0]) {
      SplitTrimStart(s[1..]);
    }
  }

  lemma SplitTrimEnd(t: string)
    ensures Split(TrimEnd(t)) == Split(t)
  {
    var r := TrimEnd(t);
    var w := t[|r|..];
    assert t == r + w;
    SplitAppendSpace(r, w);
  }

  /** The `strip()` before `split()` at line 133 is redundant: `split()` alone gives the same words. */
  lemma SplitIgnoresStrip(s: string)
    ensures Split(Strip(s)) == Split(s)
  {
    assert Strip(s) == TrimEnd(TrimStart(s));
    SplitTrimEnd(TrimStart(s));
    SplitTrimStart(s);
  }
}
