/** String splitting and searching as the Rust standard library does it. */
module Text {
  import opened Wrappers

  /** The characters with the Unicode `White_Space` property. */
  predicate IsWhitespace(c: char) {
    var n := c as int;
    || 0x9 <= n <= 0xd || n == 0x20 || n == 0x85 || n == 0xa0 || n == 0x1680
    || 0x2000 <= n <= 0x200a || n == 0x2028 || n == 0x2029 || n == 0x202f || n == 0x205f || n == 0x3000
  }

  predicate IsDigit(c: char) {
    '0' <= c <= '9'
  }

  predicate NoWhitespace(s: string) {
    forall i :: 0 <= i < |s| ==> !IsWhitespace(s[i])
  }

  predicate AllDigits(s: string) {
    forall i :: 0 <= i < |s| ==> IsDigit(s[i])
  }

  // ----- split_whitespace

  function TokenLength(s: string): (n: nat)
    ensures n <= |s|
  {
    if s == "" || IsWhitespace(s[0]) then 0 else 1 + TokenLength(s[1..])
  }

  function Fields(s: string): seq<string>
    decreases |s|
  {
    if s == "" then []
    else if IsWhitespace(s[0]) then Fields(s[1..])
    else
      var n := TokenLength(s);
      assert n > 0;
      [s[..n]] + Fields(s[n..])
  }

  /** Text that ends a token: nothing, or something that starts with white space. */
  predicate EndsToken(s: string) {
    s == "" || IsWhitespace(s[0])
  }

  lemma {:induction false} TokenLengthIs(token: string, rest: string)
    requires NoWhitespace(token) && EndsToken(rest)
    ensures TokenLength(token + rest) == |token|
  {
    if token == "" {
      assert token + rest == rest;
    } else {
      assert (token + rest)[1..] == token[1..] + rest;
      TokenLengthIs(token[1..], rest);
    }
  }

  lemma FirstField(token: string, rest: string)
    requires token != "" && NoWhitespace(token) && EndsToken(rest)
    ensures Fields(token + rest) == [token] + Fields(rest)
  {
    var s := token + rest;
    TokenLengthIs(token, rest);
    assert s[0] == token[0];
    assert s[..|token|] == token && s[|token|..] == rest;
  }

  // ----- find and split

  predicate At(s: string, pat: string, i: nat) {
    i + |pat| <= |s| && s[i..i + |pat|] == pat
  }

  /** The first place at or after `from` where `pat` occurs. */
  function FindFrom(s: string, pat: string, from: nat): (r: Option<nat>)
    requires from <= |s|
    ensures r.Some? ==> from <= r.value && At(s, pat, r.value)
    decreases |s| - from
  {
    if At(s, pat, from) then Some(from)
    else if from == |s| then None
    else FindFrom(s, pat, from + 1)
  }

  lemma {:induction false} FindFromIs(s: string, pat: string, from: nat)
    requires from <= |s|
    ensures var r := FindFrom(s, pat, from);
      forall j: nat :: from <= j && (r.Some? ==> j < r.value) ==> !At(s, pat, j)
    decreases |s| - from
  {
    if !At(s, pat, from) && from < |s| {
      FindFromIs(s, pat, from + 1);
    }
  }

  predicate Contains(s: string, pat: string) {
    FindFrom(s, pat, 0).Some?
  }

  /** `pat` stands somewhere in `s`. */
  lemma ContainsIs(s: string, pat: string)
    ensures Contains(s, pat) <==> exists before, after :: s == before + pat + after
  {
    FindFromIs(s, pat, 0);
    if Contains(s, pat) {
      var i := FindFrom(s, pat, 0).value;
      assert s == s[..i] + pat + s[i + |pat|..];
    }
    if before, after :| s == before + pat + after {
      assert s[|before|..|before| + |pat|] == pat;
      assert At(s, pat, |before|);
    }
  }

  /** `str::split` by a non-empty pattern. */
  function Split(s: string, pat: string): (parts: seq<string>)
    requires pat != ""
    ensures parts != []
    decreases |s|
  {
    match FindFrom(s, pat, 0)
    case None => [s]
    case Some(i) => [s[..i]] + Split(s[i + |pat|..], pat)
  }

  lemma FirstPlace(s: string, pat: string, i: nat)
    requires At(s, pat, i) && forall j: nat :: j < i ==> !At(s, pat, j)
    ensures FindFrom(s, pat, 0) == Some(i)
  {
    FindFromIs(s, pat, 0);
  }

  lemma StartsElsewhere(s: string, pat: string, j: nat)
    requires pat != "" && (j < |s| ==> s[j] != pat[0])
    ensures !At(s, pat, j)
  {
    assert j + |pat| <= |s| ==> s[j..j + |pat|][0] == s[j];
  }

  /** A pattern whose first character does not occur in `a` is first met right behind it. */
  lemma SplitAfter(a: string, pat: string, b: string)
    requires pat != "" && pat[0] !in a
    ensures Split(a + pat + b, pat) == [a] + Split(b, pat)
    ensures Contains(a + pat + b, pat)
  {
    var s := a + pat + b;
    assert s[|a|..|a| + |pat|] == pat;
    forall j: nat | j < |a| ensures !At(s, pat, j) {
      assert s[j] == a[j] && a[j] in a;
      StartsElsewhere(s, pat, j);
    }
    FirstPlace(s, pat, |a|);
    assert s[..|a|] == a && s[|a| + |pat|..] == b;
  }

  lemma SplitAbsent(s: string, pat: string)
    requires pat != "" && pat[0] !in s
    ensures Split(s, pat) == [s] && !Contains(s, pat)
  {
    forall j: nat ensures !At(s, pat, j) {
      StartsElsewhere(s, pat, j);
    }
    FindFromIs(s, pat, 0);
  }

  /** The first part of a split is `a` and some of `b`, if the pattern cannot start in `a`. */
  lemma FirstPart(a: string, b: string, pat: string) returns (k: nat)
    requires pat != "" && pat[0] !in a
    ensures k <= |b| && Split(a + b, pat)[0] == a + b[..k]
    ensures Contains(a + b, pat) <==> Contains(b, pat)
    ensures |Split(a + b, pat)| == 1 <==> !Contains(b, pat)
  {
    var s := a + b;
    forall j: nat | j < |a| ensures !At(s, pat, j) {
      assert s[j] == a[j] && a[j] in a;
      StartsElsewhere(s, pat, j);
    }
    forall j: nat ensures At(b, pat, j) <==> At(s, pat, |a| + j) {
      if j + |pat| <= |b| {
        assert s[|a| + j..|a| + j + |pat|] == b[j..j + |pat|];
      }
    }
    FindFromIs(s, pat, 0);
    FindFromIs(b, pat, 0);
    var f := FindFrom(s, pat, 0);
    if f.Some? {
      k := f.value - |a|;
      assert At(b, pat, k);
      assert s[..f.value] == a + b[..k];
    } else {
      k := |b|;
      assert b[..k] == b;
    }
  }

  // ----- numbers

  /** The longest prefix of digits. */
  function DigitPrefix(s: string): (n: nat)
    ensures n <= |s|
  {
    if s == "" || !IsDigit(s[0]) then 0 else 1 + DigitPrefix(s[1..])
  }

  lemma {:induction false} DigitPrefixIs(digits: string, rest: string)
    requires AllDigits(digits) && (rest == "" || !IsDigit(rest[0]))
    ensures DigitPrefix(digits + rest) == |digits|
  {
    if digits == "" {
      assert digits + rest == rest;
    } else {
      assert (digits + rest)[1..] == digits[1..] + rest;
      DigitPrefixIs(digits[1..], rest);
    }
  }
}
