/** Postgres version strings: printing (`PgVersion`'s `Display`) and parsing
    (`PgConfig::parse_version_str`). */
module Version {
  import opened Text
  import Decimal
  import opened Wrappers

  datatype Minor = Latest | Release(version: nat) | Beta(version: nat) | Rc(version: nat)

  datatype Parsed<+T> = Accepted(value: T) | Rejected

  const U16: nat := 0x1_0000

  // ----- printing

  function DigitChar(d: nat): char
    requires d < 10
  {
    ('0' as int + d) as char
  }

  function PrintNumber(n: nat): (s: string)
    ensures s != "" && AllDigits(s)
  {
    var ds := Decimal.Digits(n);
    seq(|ds|, i requires 0 <= i < |ds| => DigitChar(ds[i]))
  }

  function PrintMinor(minor: Minor): string {
    match minor
    case Latest => ".LATEST"
    case Release(v) => "." + PrintNumber(v)
    case Beta(v) => "beta" + PrintNumber(v)
    case Rc(v) => "rc" + PrintNumber(v)
  }

  function PrintVersion(major: nat, minor: Minor): string {
    PrintNumber(major) + PrintMinor(minor)
  }

  lemma {:induction false} TwoDigits(a: nat, b: nat)
    requires 0 < a < 10 && b < 10
    ensures PrintNumber(10 * a + b) == [DigitChar(a), DigitChar(b)] && PrintNumber(b) == [DigitChar(b)]
  {
    assert Decimal.Digits(a) == [a] && Decimal.Digits(10 * a + b) == [a] + [b];
  }

  /** Versions as they are written. */
  lemma SamplesPrinted()
    ensures PrintVersion(17, Release(4)) == "17.4" && PrintVersion(18, Beta(2)) == "18beta2" && PrintVersion(16, Rc(1)) == "16rc1"
    ensures PrintVersion(15, Latest) == "15.LATEST"
  {
    TwoDigits(1, 7);
    TwoDigits(1, 8);
    TwoDigits(1, 6);
    TwoDigits(1, 5);
    TwoDigits(1, 4);
    TwoDigits(1, 2);
    TwoDigits(1, 1);
  }

  // ----- numbers

  function DigitValue(c: char): nat
    requires IsDigit(c)
  {
    c as int - '0' as int
  }

  function DigitValues(s: string): (ds: seq<nat>)
    requires AllDigits(s)
    ensures |ds| == |s|
  {
    seq(|s|, i requires 0 <= i < |s| => DigitValue(s[i]))
  }

  /** `u16::from_str`: an optional plus sign, then digits with a value that fits. */
  function ParseU16(s: string): Option<nat> {
    var digits := if s != "" && s[0] == '+' then s[1..] else s;
    if digits == "" || !AllDigits(digits) then None
    else if Decimal.Number(DigitValues(digits)) >= U16 then None
    else Some(Decimal.Number(DigitValues(digits)))
  }

  lemma ParsePrinted(n: nat)
    requires n < 65536
    ensures ParseU16(PrintNumber(n)) == Some(n)
  {
    assert DigitValues(PrintNumber(n)) == Decimal.Digits(n);
    Decimal.RoundTrip(n);
  }

  // ----- byte offsets

  /** How many bytes a character takes in UTF-8. */
  function Utf8Length(c: char): (n: nat)
    ensures n >= 1
  {
    var k := c as int;
    if k < 0x80 then 1 else if k < 0x800 then 2 else if k < 0x1_0000 then 3 else 4
  }

  function ByteLength(s: string): nat {
    if s == "" then 0 else ByteLength(s[..|s| - 1]) + Utf8Length(s[|s| - 1])
  }

  lemma {:induction false} DigitsAreBytes(s: string)
    requires AllDigits(s)
    ensures ByteLength(s) == |s|
  {
    if s != "" {
      DigitsAreBytes(s[..|s| - 1]);
    }
  }

  /** `&s[0..end]` with a byte offset: `None` stands for the panic when the offset does not
      fall between two characters. */
  function TakeBytes(s: string, end: nat): Option<string>
  {
    if ByteLength(s) == end then Some(s)
    else if s == "" then None
    else TakeBytes(s[..|s| - 1], end)
  }

  /** A character can be cut off before it or after it, and nowhere else: ASCII takes one byte, other
      characters up to four. */
  lemma CutsBetweenChars(c: char, end: nat)
    ensures TakeBytes([c], end).Some? <==> end == 0 || end == (if c < '\U{80}' then 1 else if c < '\U{800}' then 2 else if c < '\U{10000}' then 3 else 4)
  {
    assert [c][..0] == [] && ByteLength([]) == 0;
    assert ByteLength([c]) == Utf8Length(c);
  }

  lemma {:induction false} TakeWhole(s: string, k: nat)
    requires k <= |s|
    ensures TakeBytes(s, ByteLength(s[..k])) == Some(s[..k])
    decreases |s|
  {
    if k == |s| {
      assert s[..k] == s;
    } else {
      var front := s[..|s| - 1];
      assert front[..k] == s[..k];
      TakeWhole(front, k);
      Longer(s, k);
    }
  }

  lemma {:induction false} Longer(s: string, k: nat)
    requires k < |s|
    ensures ByteLength(s[..k]) < ByteLength(s)
    decreases |s|
  {
    var front := s[..|s| - 1];
    assert front[..k] == s[..k];
    if k == |front| {
      assert s[..k] == front;
    } else {
      Longer(front, k);
    }
  }

  // ----- parsing

  /** Everything after the token has been cut up: parts, and which kind of minor they give. */
  datatype Cut = Cut(parts: seq<string>, beta: bool, rc: bool)

  function CutToken(token: string): Option<Cut> {
    var parts := Split(token, ".");
    if |parts| > 1 then Some(Cut(parts, false, false))
    else if Contains(parts[0], "beta") then Some(Cut(Split(parts[0], "beta"), true, false))
    else if Contains(parts[0], "rc") then Some(Cut(Split(parts[0], "rc"), false, true))
    else None
  }

  lemma CutHasTwoParts(token: string)
    ensures CutToken(token).Some? ==> |CutToken(token).value.parts| >= 2
  {
  }

  /** The answer for a token. */
  function ParseToken(token: string): Parsed<(nat, Minor)> {
    CutHasTwoParts(token);
    match CutToken(token)
    case None => Rejected
    case Some(cut) =>
      var major := ParseU16(cut.parts[0]);
      var minor := ParseU16(cut.parts[1][..DigitPrefix(cut.parts[1])]);
      if major.None? || minor.None? then Rejected
      else Accepted((major.value, if cut.beta then Beta(minor.value) else if cut.rc then Rc(minor.value) else Release(minor.value)))
  }

  function ParseVersion(s: string): Parsed<(nat, Minor)> {
    var fields := Fields(s);
    if |fields| < 2 then Rejected else ParseToken(fields[1])
  }

  /** `parse_version_str`: it never indexes out of range, and the byte offset it slices the
      minor version at always falls between two characters. */
  method ParseVersionStr(s: string) returns (r: Parsed<(nat, Minor)>)
    ensures r == ParseVersion(s)
  {
    var fields := Fields(s);
    if |fields| < 2 {
      return Rejected;
    }
    var version := Split(fields[1], ".");
    var beta, rc := false, false;
    if |version| == 1 {
      var first := version[0];
      if Contains(first, "beta") {
        beta := true;
        version := Split(first, "beta");
      } else if Contains(first, "rc") {
        rc := true;
        version := Split(first, "rc");
      } else {
        return Rejected;
      }
    }
    CutHasTwoParts(fields[1]);
    assert CutToken(fields[1]) == Some(Cut(version, beta, rc));
    var major := ParseU16(version[0]);
    if major.None? {
      return Rejected;
    }
    var minor := DigitsOf(version[1]);
    var number := ParseU16(minor);
    if number.None? {
      return Rejected;
    }
    r := Accepted((major.value, if beta then Beta(number.value) else if rc then Rc(number.value) else Release(number.value)));
  }

  /** The loop that looks for the end of the digits by character and slices by byte. */
  method DigitsOf(minor: string) returns (digits: string)
    ensures digits == minor[..DigitPrefix(minor)]
  {
    var endIndex := ByteLength(minor);
    ghost var k := |minor|;
    assert minor[..|minor|] == minor;
    for i := 0 to |minor|
      invariant endIndex == ByteLength(minor) && k == |minor|
      invariant AllDigits(minor[..i])
    {
      if !IsDigit(minor[i]) {
        DigitsAreBytes(minor[..i]);
        endIndex := i;
        k := i;
        break;
      }
    }
    assert endIndex == ByteLength(minor[..k]) && AllDigits(minor[..k]) && (k < |minor| ==> !IsDigit(minor[k]));
    TakeWhole(minor, k);
    assert minor == minor[..k] + minor[k..];
    DigitPrefixIs(minor[..k], minor[k..]);
    digits := TakeBytes(minor, endIndex).value;
  }

  // ----- round trips

  /** What may follow the printed version inside its token: nothing, or something that does
      not start with a digit; no white space. */
  predicate IsSuffix(suffix: string) {
    NoWhitespace(suffix) && (suffix == "" || !IsDigit(suffix[0]))
  }

  lemma NumberHasNo(n: nat, c: char)
    requires !IsDigit(c)
    ensures c !in PrintNumber(n)
  {
  }

  /** The digits of a part that starts with a printed number are that number. */
  lemma MinorOf(v: nat, suffix: string, k: nat)
    requires v < 65536 && IsSuffix(suffix) && k <= |suffix|
    ensures var part := PrintNumber(v) + suffix[..k];
      ParseU16(part[..DigitPrefix(part)]) == Some(v)
  {
    var digits := PrintNumber(v);
    DigitPrefixIs(digits, suffix[..k]);
    assert (digits + suffix[..k])[..|digits|] == digits;
    ParsePrinted(v);
  }

  lemma CleanToken(major: nat, marker: string, v: nat, suffix: string)
    requires NoWhitespace(marker) && NoWhitespace(suffix)
    ensures NoWhitespace(PrintNumber(major) + marker + (PrintNumber(v) + suffix))
  {
  }

  /** From the parts of a token to the answer. */
  lemma AnswerOf(token: string, cut: Cut)
    requires CutToken(token) == Some(cut) && |cut.parts| >= 2
    ensures var major, minor := ParseU16(cut.parts[0]), ParseU16(cut.parts[1][..DigitPrefix(cut.parts[1])]);
      && (major.None? ==> ParseToken(token) == Rejected)
      && (major.Some? && minor.Some? ==> ParseToken(token) == Accepted((major.value,
            if cut.beta then Beta(minor.value) else if cut.rc then Rc(minor.value) else Release(minor.value))))
  {
  }

  lemma Regroup(a: string, b: string, c: string, d: string)
    ensures a + (b + c) + d == a + b + (c + d)
    ensures a + b + c + d == a + b + (c + d)
    ensures a + b + c + d == a + (b + c + d)
  {
  }

  lemma TokenOf(token: string, rest: string)
    requires token != "" && NoWhitespace(token) && EndsToken(rest)
    ensures ParseVersion("PostgreSQL " + token + rest) == ParseToken(token)
  {
    var behind := " " + token + rest;
    assert "PostgreSQL " + token + rest == "PostgreSQL" + behind;
    FirstField("PostgreSQL", behind);
    assert behind[1..] == token + rest && Fields(behind) == Fields(token + rest);
    FirstField(token, rest);
  }

  lemma PrintedToken(major: nat, marker: string, v: nat, suffix: string, rest: string)
    requires NoWhitespace(marker) && IsSuffix(suffix) && EndsToken(rest)
    ensures ParseVersion("PostgreSQL " + (PrintNumber(major) + (marker + PrintNumber(v)) + suffix) + rest)
         == ParseToken(PrintNumber(major) + marker + (PrintNumber(v) + suffix))
  {
    Regroup(PrintNumber(major), marker, PrintNumber(v), suffix);
    CleanToken(major, marker, v, suffix);
    TokenOf(PrintNumber(major) + marker + (PrintNumber(v) + suffix), rest);
  }

  lemma ReleaseToken(major: nat, v: nat, suffix: string)
    requires major < 65536 && v < 65536 && IsSuffix(suffix)
    ensures ParseToken(PrintNumber(major) + "." + (PrintNumber(v) + suffix)) == Accepted((major, Release(v)))
  {
    var tail := PrintNumber(v) + suffix;
    var token := PrintNumber(major) + "." + tail;
    NumberHasNo(major, '.');
    NumberHasNo(v, '.');
    SplitAfter(PrintNumber(major), ".", tail);
    var k := FirstPart(PrintNumber(v), suffix, ".");
    MinorOf(v, suffix, k);
    ParsePrinted(major);
    AnswerOf(token, Cut(Split(token, "."), false, false));
  }

  /** A printed release version reads back, whatever suffix and further text follow it. */
  lemma ReleaseRoundTrip(major: nat, v: nat, suffix: string, rest: string)
    requires major < 65536 && v < 65536 && IsSuffix(suffix) && EndsToken(rest)
    ensures ParseVersion("PostgreSQL " + (PrintVersion(major, Release(v)) + suffix) + rest) == Accepted((major, Release(v)))
  {
    PrintedToken(major, ".", v, suffix, rest);
    ReleaseToken(major, v, suffix);
  }

  lemma NotANumber(a: string, b: string)
    requires a != "" && AllDigits(a) && b != "" && !IsDigit(b[0])
    ensures ParseU16(a + b) == None
  {
    assert (a + b)[|a|] == b[0] && (a + b)[0] == a[0];
  }

  /** The two halves of a pre-release token, if it has no dot and the marker comes first. */
  lemma PreRelease(major: nat, marker: string, v: nat, suffix: string)
    requires major < 65536 && v < 65536 && IsSuffix(suffix)
    requires marker == "beta" || marker == "rc"
    ensures var parts := Split(PrintNumber(major) + marker + (PrintNumber(v) + suffix), marker);
      && |parts| >= 2 && ParseU16(parts[0]) == Some(major)
      && ParseU16(parts[1][..DigitPrefix(parts[1])]) == Some(v)
    ensures Contains(PrintNumber(major) + marker + (PrintNumber(v) + suffix), marker)
  {
    NumberHasNo(major, marker[0]);
    NumberHasNo(v, marker[0]);
    SplitAfter(PrintNumber(major), marker, PrintNumber(v) + suffix);
    var k := FirstPart(PrintNumber(v), suffix, marker);
    MinorOf(v, suffix, k);
    ParsePrinted(major);
  }

  /** Splitting a pre-release token at dots: one part exactly when the suffix has no dot, and
      otherwise a first part that is no number. */
  lemma DotsInToken(major: nat, marker: string, v: nat, suffix: string)
    requires marker == "beta" || marker == "rc"
    ensures var token := PrintNumber(major) + marker + (PrintNumber(v) + suffix);
      && (|Split(token, ".")| == 1 <==> !Contains(suffix, "."))
      && (!Contains(suffix, ".") ==> Split(token, ".")[0] == token)
      && (Contains(suffix, ".") ==> ParseU16(Split(token, ".")[0]) == None)
  {
    var head := PrintNumber(major) + marker + PrintNumber(v);
    var token := PrintNumber(major) + marker + (PrintNumber(v) + suffix);
    Regroup(PrintNumber(major), marker, PrintNumber(v), suffix);
    NumberHasNo(major, '.');
    NumberHasNo(v, '.');
    var k := FirstPart(head, suffix, ".");
    Regroup(PrintNumber(major), marker, PrintNumber(v), suffix[..k]);
    NotANumber(PrintNumber(major), marker + PrintNumber(v) + suffix[..k]);
    if !Contains(suffix, ".") {
      assert Split(token, ".") == [token];
    }
  }

  lemma BetaToken(major: nat, v: nat, suffix: string)
    requires major < 65536 && v < 65536 && IsSuffix(suffix)
    ensures ParseToken(PrintNumber(major) + "beta" + (PrintNumber(v) + suffix))
         == if Contains(suffix, ".") then Rejected else Accepted((major, Beta(v)))
  {
    var token := PrintNumber(major) + "beta" + (PrintNumber(v) + suffix);
    DotsInToken(major, "beta", v, suffix);
    PreRelease(major, "beta", v, suffix);
    if Contains(suffix, ".") {
      AnswerOf(token, Cut(Split(token, "."), false, false));
    } else {
      AnswerOf(token, Cut(Split(token, "beta"), true, false));
    }
  }

  lemma BetaPrinted(major: nat, v: nat, suffix: string, rest: string)
    requires IsSuffix(suffix) && EndsToken(rest)
    ensures ParseVersion("PostgreSQL " + (PrintVersion(major, Beta(v)) + suffix) + rest)
         == ParseToken(PrintNumber(major) + "beta" + (PrintNumber(v) + suffix))
  {
    assert PrintVersion(major, Beta(v)) == PrintNumber(major) + ("beta" + PrintNumber(v));
    PrintedToken(major, "beta", v, suffix, rest);
  }

  /** A printed beta reads back exactly when its suffix has no dot; with a dot it is rejected. */
  lemma BetaRoundTrip(major: nat, v: nat, suffix: string, rest: string)
    requires major < 65536 && v < 65536 && IsSuffix(suffix) && EndsToken(rest)
    ensures ParseVersion("PostgreSQL " + (PrintVersion(major, Beta(v)) + suffix) + rest)
         == if Contains(suffix, ".") then Rejected else Accepted((major, Beta(v)))
  {
    BetaPrinted(major, v, suffix, rest);
    BetaToken(major, v, suffix);
  }

  /** Whether an rc token contains "beta" is up to its suffix; cut there, it has no major. */
  lemma BetaInRcToken(major: nat, v: nat, suffix: string)
    ensures var token := PrintNumber(major) + "rc" + (PrintNumber(v) + suffix);
      && (Contains(token, "beta") <==> Contains(suffix, "beta"))
      && ParseU16(Split(token, "beta")[0]) == None
  {
    var head := PrintNumber(major) + "rc" + PrintNumber(v);
    Regroup(PrintNumber(major), "rc", PrintNumber(v), suffix);
    NumberHasNo(major, 'b');
    NumberHasNo(v, 'b');
    var k := FirstPart(head, suffix, "beta");
    Regroup(PrintNumber(major), "rc", PrintNumber(v), suffix[..k]);
    NotANumber(PrintNumber(major), "rc" + PrintNumber(v) + suffix[..k]);
  }

  lemma RcToken(major: nat, v: nat, suffix: string)
    requires major < 65536 && v < 65536 && IsSuffix(suffix)
    ensures ParseToken(PrintNumber(major) + "rc" + (PrintNumber(v) + suffix))
         == if Contains(suffix, ".") || Contains(suffix, "beta") then Rejected else Accepted((major, Rc(v)))
  {
    var token := PrintNumber(major) + "rc" + (PrintNumber(v) + suffix);
    DotsInToken(major, "rc", v, suffix);
    PreRelease(major, "rc", v, suffix);
    BetaInRcToken(major, v, suffix);
    if Contains(suffix, ".") {
      AnswerOf(token, Cut(Split(token, "."), false, false));
    } else if Contains(suffix, "beta") {
      AnswerOf(token, Cut(Split(token, "beta"), true, false));
    } else {
      AnswerOf(token, Cut(Split(token, "rc"), false, true));
    }
  }

  lemma RcPrinted(major: nat, v: nat, suffix: string, rest: string)
    requires IsSuffix(suffix) && EndsToken(rest)
    ensures ParseVersion("PostgreSQL " + (PrintVersion(major, Rc(v)) + suffix) + rest)
         == ParseToken(PrintNumber(major) + "rc" + (PrintNumber(v) + suffix))
  {
    assert PrintVersion(major, Rc(v)) == PrintNumber(major) + ("rc" + PrintNumber(v));
    PrintedToken(major, "rc", v, suffix, rest);
  }

  /** A printed release candidate reads back exactly when its suffix has neither a dot nor the
      word "beta"; otherwise it is rejected. */
  lemma RcRoundTrip(major: nat, v: nat, suffix: string, rest: string)
    requires major < 65536 && v < 65536 && IsSuffix(suffix) && EndsToken(rest)
    ensures ParseVersion("PostgreSQL " + (PrintVersion(major, Rc(v)) + suffix) + rest)
         == if Contains(suffix, ".") || Contains(suffix, "beta") then Rejected else Accepted((major, Rc(v)))
  {
    RcPrinted(major, v, suffix, rest);
    RcToken(major, v, suffix);
  }

  lemma LatestToken(major: nat)
    ensures ParseToken(PrintNumber(major) + "." + "LATEST") == Rejected
  {
    NumberHasNo(major, '.');
    SplitAfter(PrintNumber(major), ".", "LATEST");
    SplitAbsent("LATEST", ".");
    DigitPrefixIs("", "LATEST");
    assert "" + "LATEST" == "LATEST";
  }

  lemma LatestClean(major: nat)
    ensures var token := PrintVersion(major, Latest); token != "" && NoWhitespace(token)
  {
  }

  lemma LatestPrinted(major: nat)
    ensures PrintVersion(major, Latest) == PrintNumber(major) + "." + "LATEST"
  {
    assert ".LATEST" == "." + "LATEST";
    Regroup(PrintNumber(major), ".", "LATEST", "");
  }

  /** The placeholder for "latest" is for display only: it never reads back. */
  lemma LatestIsRejected(major: nat, rest: string)
    requires EndsToken(rest)
    ensures ParseVersion("PostgreSQL " + PrintVersion(major, Latest) + rest) == Rejected
  {
    var token := PrintVersion(major, Latest);
    LatestPrinted(major);
    LatestToken(major);
    LatestClean(major);
    TokenOf(token, rest);
  }

  // ----- what is rejected

  /** A token without a dot, "beta" and "rc", such as a development version, is rejected. */
  lemma UnmarkedRejected(token: string, rest: string)
    requires token != "" && NoWhitespace(token) && EndsToken(rest)
    requires forall before, after :: token != before + "." + after && token != before + "beta" + after && token != before + "rc" + after
    ensures ParseVersion("PostgreSQL " + token + rest) == Rejected
  {
    ContainsIs(token, ".");
    ContainsIs(token, "beta");
    ContainsIs(token, "rc");
    TokenOf(token, rest);
  }

  lemma TooBig(n: nat)
    requires n >= 65536
    ensures ParseU16(PrintNumber(n)) == None
  {
    assert DigitValues(PrintNumber(n)) == Decimal.Digits(n);
    Decimal.RoundTrip(n);
  }

  /** Numbers must fit 16 bits. */
  lemma OverflowRejected(major: nat, v: nat, rest: string)
    requires EndsToken(rest) && (major >= 65536 || v >= 65536)
    ensures ParseVersion("PostgreSQL " + (PrintVersion(major, Release(v)) + "") + rest) == Rejected
  {
    var token := PrintNumber(major) + "." + (PrintNumber(v) + "");
    PrintedToken(major, ".", v, "", rest);
    NumberHasNo(major, '.');
    NumberHasNo(v, '.');
    SplitAfter(PrintNumber(major), ".", PrintNumber(v) + "");
    SplitAbsent(PrintNumber(v) + "", ".");
    DigitPrefixIs(PrintNumber(v), "");
    assert PrintNumber(v) + "" == PrintNumber(v) && PrintNumber(v)[..|PrintNumber(v)|] == PrintNumber(v);
    if major >= 65536 {
      TooBig(major);
    } else {
      TooBig(v);
    }
  }

  /** A single word is rejected. */
  lemma OneWordRejected(word: string)
    requires NoWhitespace(word)
    ensures ParseVersion(word) == Rejected
  {
    if word != "" {
      FirstField(word, "");
      assert word + "" == word;
    }
  }
}
