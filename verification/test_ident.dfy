/** Shortening of test names that are too long for Postgres (`maybe_shorten_pg_test_ident`).
    Names are UTF-8 byte strings. */
module TestIdent {
  import opened Sequences
  import Decimal

  type byte = b: int | 0 <= b < 256
  type Bytes = seq<byte>

  const MAX_LEN: nat := 64
  const COUNTER_WRAP: nat := 0x1_0000_0000_0000_0000

  // ----- characters and boundaries

  predicate Continues(b: byte) {
    0x80 <= b < 0xc0
  }

  /** The UTF-8 encoding of one character: a leading byte and up to three continuations. */
  predicate IsChar(c: Bytes) {
    1 <= |c| <= 4 && !Continues(c[0]) && forall i :: 1 <= i < |c| ==> Continues(c[i])
  }

  /** Continuations are the bytes whose two top bits are `10`. */
  lemma ContinuesIs(b: byte)
    ensures Continues(b) <==> b / 64 == 2
  {
  }

  /** Characters of one to four bytes. */
  lemma SampleChars()
    ensures IsChar([0x61]) && IsChar([0xc3, 0xa9]) && IsChar([0xe2, 0x82, 0xac]) && IsChar([0xf0, 0x9f, 0x98, 0x80])
  {
  }

  ghost function Flatten(chars: seq<Bytes>): Bytes {
    if chars == [] then [] else Flatten(chars[..|chars| - 1]) + chars[|chars| - 1]
  }

  ghost predicate IsText(chars: seq<Bytes>) {
    forall i :: 0 <= i < |chars| ==> IsChar(chars[i])
  }

  /** `str::is_char_boundary`. */
  predicate IsBoundary(s: Bytes, i: nat) {
    i == 0 || i == |s| || (i < |s| && !Continues(s[i]))
  }

  /** A position is a boundary exactly when it cuts between two characters. */
  lemma {:induction false} BoundaryIsBetweenChars(chars: seq<Bytes>, i: nat) returns (k: nat)
    requires IsText(chars) && i <= |Flatten(chars)|
    ensures k <= |chars| && |Flatten(chars[..k])| <= i
    ensures IsBoundary(Flatten(chars), i) <==> |Flatten(chars[..k])| == i
    ensures Flatten(chars[..k]) <= Flatten(chars)
    ensures k < |chars| ==> i < |Flatten(chars[..k + 1])|
  {
    var s := Flatten(chars);
    if i == |s| {
      k := |chars|;
      assert chars[..k] == chars;
    } else {
      var n := |chars| - 1;
      var front, last := Flatten(chars[..n]), chars[n];
      assert IsChar(last);
      if i < |front| {
        assert chars[..n][..n] == chars[..n];
        k := BoundaryIsBetweenChars(chars[..n], i);
        assert k < n;
        assert chars[..n][..k] == chars[..k] && chars[..n][..k + 1] == chars[..k + 1];
      } else {
        k := n;
        assert chars[..n + 1] == chars;
        assert s[i] == last[i - |front|];
      }
    }
  }

  // ----- the shortened name

  /** `t{n}_` */
  function Prefix(n: nat): Bytes {
    var ds := Decimal.Digits(n);
    ['t' as int] + seq(|ds|, i requires 0 <= i < |ds| => '0' as int + ds[i]) + ['_' as int]
  }

  /** `ident` is `t{n}_` and as many whole characters of `chars` as fit in 63 bytes. */
  ghost predicate ShortenedTo(n: nat, chars: seq<Bytes>, ident: Bytes) {
    exists k: nat :: Cuts(n, chars, ident, k)
  }

  ghost predicate Cuts(n: nat, chars: seq<Bytes>, ident: Bytes, k: nat) {
    && k <= |chars|
    && ident == Prefix(n) + Flatten(chars[..k])
    && |ident| <= MAX_LEN - 1
    && (k < |chars| ==> |Prefix(n) + Flatten(chars[..k + 1])| > MAX_LEN - 1)
  }

  lemma PrefixFits(n: nat)
    requires n < 0x1_0000_0000_0000_0000
    ensures |Prefix(n)| <= 22
  {
    PowersOfTen();
    Decimal.DigitCount(n, 20);
  }

  lemma PowersOfTen()
    ensures Decimal.Pow10(20) == 100_000_000_000_000_000_000
  {
    assert Decimal.Pow10(5) == 100_000;
    assert Decimal.Pow10(10) == 10_000_000_000;
    assert Decimal.Pow10(15) == 1_000_000_000_000_000;
  }

  /** A shortened name wastes no more than three bytes, the most that a cut character can leave. */
  lemma ShortenedLength(n: nat, chars: seq<Bytes>, ident: Bytes)
    requires IsText(chars) && |Flatten(chars)| >= 64 && ShortenedTo(n, chars, ident)
    ensures 60 <= |ident| <= 63
  {
    assert chars[..|chars|] == chars;
    var k: nat :| Cuts(n, chars, ident, k);
    if k < |chars| {
      assert chars[..k + 1][..k] == chars[..k] && IsChar(chars[k]);
      assert Flatten(chars[..k + 1]) == Flatten(chars[..k]) + chars[k];
    }
  }

  class Shortener {
    /** The process-wide counter. */
    var counter: nat

    ghost predicate Valid()
      reads this
    {
      counter < COUNTER_WRAP
    }

    constructor ()
      ensures Valid() && counter == 0
    {
      counter := 0;
    }

    /** `maybe_shorten_pg_test_ident`: short names come back unchanged; a long one becomes the
        counter's prefix and the longest run of whole characters that fits. */
    method MaybeShorten(original: Bytes, ghost chars: seq<Bytes>) returns (ident: Bytes)
      requires Valid() && IsText(chars) && original == Flatten(chars)
      modifies this
      ensures Valid()
      ensures |original| < 64 ==> ident == original && counter == old(counter)
      ensures |original| >= 64 ==>
        ShortenedTo(old(counter), chars, ident) && counter == (old(counter) + 1) % 0x1_0000_0000_0000_0000
    {
      if |original| < MAX_LEN {
        return original;
      }
      var n := counter;
      counter := (counter + 1) % COUNTER_WRAP;
      PrefixFits(n);
      var prefix := Prefix(n);
      var nameBudget := (MAX_LEN - 1) - |prefix|;
      var byteEnd := if nameBudget < |original| then nameBudget else |original|;
      ghost var k := BoundaryIsBetweenChars(chars, byteEnd);
      ghost var top := byteEnd;
      while !IsBoundary(original, byteEnd)
        invariant 0 <= byteEnd <= top
        invariant |Flatten(chars[..k])| <= byteEnd
        invariant counter == (n + 1) % COUNTER_WRAP
        decreases byteEnd
      {
        ghost var k' := BoundaryIsBetweenChars(chars, byteEnd);
        SameChar(chars, k, k', byteEnd, top);
        byteEnd := byteEnd - 1;
      }
      ghost var k' := BoundaryIsBetweenChars(chars, byteEnd);
      SameChar(chars, k, k', byteEnd, top);
      ident := prefix + original[..byteEnd];
      assert original[..byteEnd] == Flatten(chars[..k]);
      assert Cuts(n, chars, ident, k);
    }
  }

  /** One name of a run: unchanged if short, and otherwise cut with its own number. */
  ghost predicate Handled(names: seq<Bytes>, texts: seq<seq<Bytes>>, i: nat, ident: Bytes)
    requires i < |names| == |texts|
  {
    if |names[i]| < MAX_LEN then ident == names[i] else ShortenedTo(LongBefore(names, i), texts[i], ident)
  }

  /** How many of the first `i` names are too long. */
  ghost function LongBefore(names: seq<Bytes>, i: nat): (n: nat)
    requires i <= |names|
    ensures n <= i
  {
    if i == 0 then 0 else LongBefore(names, i - 1) + (if |names[i - 1]| < MAX_LEN then 0 else 1)
  }

  /** All calls of one compilation, in order. */
  method ShortenAll(shortener: Shortener, names: seq<Bytes>, ghost texts: seq<seq<Bytes>>) returns (idents: seq<Bytes>)
    requires shortener.counter == 0 && |names| < COUNTER_WRAP && |texts| == |names|
    requires forall i :: 0 <= i < |names| ==> IsText(texts[i]) && names[i] == Flatten(texts[i])
    modifies shortener
    ensures |idents| == |names|
    ensures forall i :: 0 <= i < |names| ==> Handled(names, texts, i, idents[i])
  {
    idents := [];
    for i := 0 to |names|
      invariant |idents| == i && shortener.counter == LongBefore(names, i)
      invariant forall j :: 0 <= j < i ==> Handled(names, texts, j, idents[j])
    {
      var ident := shortener.MaybeShorten(names[i], texts[i]);
      idents := idents + [ident];
    }
  }

  // ----- uniqueness

  /** The prefix is self-delimiting: it determines its number. */
  lemma PrefixInjective(n: nat, m: nat, x: Bytes, y: Bytes)
    requires Prefix(n) + x == Prefix(m) + y
    ensures n == m
  {
    var ds, es := Decimal.Digits(n), Decimal.Digits(m);
    var s := Prefix(n) + x;
    assert s[|ds| + 1] == '_' as int && s == Prefix(m) + y && s[|es| + 1] == '_' as int;
    assert forall i :: 0 <= i < |ds| ==> s[i + 1] == '0' as int + ds[i];
    assert forall i :: 0 <= i < |es| ==> s[i + 1] == '0' as int + es[i];
    forall i | 0 <= i < |ds| ensures ds[i] == es[i] {
      assert s[i + 1] == '0' as int + ds[i];
    }
    assert ds == es;
    Decimal.RoundTrip(n);
    Decimal.RoundTrip(m);
  }

  lemma {:induction false} LongBeforeMonotone(names: seq<Bytes>, i: nat, j: nat)
    requires i < j <= |names| && |names[i]| >= MAX_LEN
    ensures LongBefore(names, i) < LongBefore(names, j)
    decreases j - i
  {
    if i + 1 < j {
      LongBeforeMonotone(names, i, j - 1);
    }
  }

  /** No two shortened names of a compilation are equal. */
  lemma ShortenedNamesDiffer(names: seq<Bytes>, texts: seq<seq<Bytes>>, idents: seq<Bytes>, i: nat, j: nat)
    requires |names| == |texts| == |idents| && i < j < |names|
    requires Handled(names, texts, i, idents[i]) && Handled(names, texts, j, idents[j])
    requires |names[i]| >= MAX_LEN && |names[j]| >= MAX_LEN
    ensures idents[i] != idents[j]
  {
    var a: nat :| Cuts(LongBefore(names, i), texts[i], idents[i], a);
    var b: nat :| Cuts(LongBefore(names, j), texts[j], idents[j], b);
    LongBeforeMonotone(names, i, j);
    if idents[i] == idents[j] {
      PrefixInjective(LongBefore(names, i), LongBefore(names, j), Flatten(texts[i][..a]), Flatten(texts[j][..b]));
    }
  }

  /** Some short name is spelled like the shortened form of a long one. */
  ghost predicate Imitates(names: seq<Bytes>, texts: seq<seq<Bytes>>, i: nat, j: nat)
    requires i < |names| == |texts| && j < |names|
  {
    |names[i]| < MAX_LEN && |names[j]| >= MAX_LEN && ShortenedTo(LongBefore(names, j), texts[j], names[i])
  }

  lemma CutsUnique(n: nat, chars: seq<Bytes>, a: Bytes, b: Bytes)
    requires ShortenedTo(n, chars, a) && ShortenedTo(n, chars, b)
    ensures a == b
  {
    var k: nat :| Cuts(n, chars, a, k);
    var l: nat :| Cuts(n, chars, b, l);
    if k < l {
      FlattenMonotone(chars, k + 1, l);
    } else if l < k {
      FlattenMonotone(chars, l + 1, k);
    }
  }

  /** The counter keeps shortened names apart from each other, but not from names that were
      short already: distinct names stay distinct if and only if no short name imitates the
      shortened form of a long one. */
  lemma UniqueIffNoImitation(names: seq<Bytes>, texts: seq<seq<Bytes>>, idents: seq<Bytes>)
    requires |names| == |texts| == |idents| && Distinct(names)
    requires forall i :: 0 <= i < |names| ==> Handled(names, texts, i, idents[i])
    ensures Distinct(idents) <==> forall i: nat, j: nat :: i < |names| && j < |names| ==> !Imitates(names, texts, i, j)
    ensures (forall i: nat, n: nat :: i < |names| ==> !(Prefix(n) <= names[i])) ==> Distinct(idents)
  {
    forall i: nat, j: nat | i < |names| && j < |names| && Imitates(names, texts, i, j)
      ensures Prefix(LongBefore(names, j)) <= names[i]
    {
    }
    if i: nat, j: nat :| i < |names| && j < |names| && Imitates(names, texts, i, j) {
      assert Handled(names, texts, i, idents[i]) && Handled(names, texts, j, idents[j]);
      CutsUnique(LongBefore(names, j), texts[j], names[i], idents[j]);
      assert idents[i] == idents[j];
    }
    if forall i: nat, j: nat :: i < |names| && j < |names| ==> !Imitates(names, texts, i, j) {
      forall i, j | 0 <= i < j < |idents| ensures idents[i] != idents[j] {
        assert Handled(names, texts, i, idents[i]) && Handled(names, texts, j, idents[j]);
        if |names[i]| >= MAX_LEN && |names[j]| >= MAX_LEN {
          ShortenedNamesDiffer(names, texts, idents, i, j);
        } else {
          assert !Imitates(names, texts, i, j) && !Imitates(names, texts, j, i);
        }
      }
    }
  }

  /** 64 letters `a`, and `t0_` followed by 60 of them. */
  function LongName(): seq<Bytes> {
    seq(64, _ => ['a' as int])
  }

  function Imitation(): seq<Bytes> {
    [['t' as int], ['0' as int], ['_' as int]] + seq(60, _ => ['a' as int])
  }

  lemma {:induction false} FlattenConcat(p: seq<Bytes>, q: seq<Bytes>)
    ensures Flatten(p + q) == Flatten(p) + Flatten(q)
  {
    if q == [] {
      assert p + q == p;
    } else {
      FlattenConcat(p, q[..|q| - 1]);
      assert (p + q)[..|p + q| - 1] == p + q[..|q| - 1];
    }
  }

  lemma PrefixZero()
    ensures Flatten([['t' as int], ['0' as int], ['_' as int]]) == Prefix(0)
  {
    var p: seq<Bytes> := [['t' as int], ['0' as int], ['_' as int]];
    assert p[..2] == [['t' as int], ['0' as int]] && p[..2][..1] == [['t' as int]] && p[..2][..1][..0] == [];
    assert Flatten(p[..2][..1]) == ['t' as int];
    assert Flatten(p[..2]) == ['t' as int, '0' as int];
    assert Decimal.Digits(0) == [0];
    assert Prefix(0) == ['t' as int, '0' as int, '_' as int];
  }

  lemma ImitationIs()
    ensures Flatten(Imitation()) == Prefix(0) + Flatten(LongName()[..60])
  {
    var p: seq<Bytes> := [['t' as int], ['0' as int], ['_' as int]];
    FlattenConcat(p, LongName()[..60]);
    PrefixZero();
    assert Imitation() == p + LongName()[..60];
  }

  /** Two different names, both text, that a compilation gives the same identifier. */
  lemma CollisionExists(idents: seq<Bytes>)
    ensures var texts := [Imitation(), LongName()];
            var names := [Flatten(Imitation()), Flatten(LongName())];
      && IsText(texts[0]) && IsText(texts[1]) && names[0] != names[1]
      && (|idents| == 2 && Handled(names, texts, 0, idents[0]) && Handled(names, texts, 1, idents[1]) ==> idents[0] == idents[1])
  {
    var texts := [Imitation(), LongName()];
    var names := [Flatten(Imitation()), Flatten(LongName())];
    ImitationIs();
    FlattenSingles(LongName(), 60);
    FlattenSingles(LongName(), 61);
    FlattenSingles(LongName(), 64);
    assert LongName()[..64] == LongName();
    assert |Decimal.Digits(0)| == 1;
    assert Cuts(0, LongName(), Flatten(Imitation()), 60);
    assert LongBefore(names, 1) == LongBefore(names, 0);
    if |idents| == 2 && Handled(names, texts, 0, idents[0]) && Handled(names, texts, 1, idents[1]) {
      CutsUnique(0, LongName(), idents[0], idents[1]);
    }
  }

  lemma {:induction false} FlattenSingles(chars: seq<Bytes>, n: nat)
    requires n <= |chars| && forall i :: 0 <= i < |chars| ==> |chars[i]| == 1
    ensures |Flatten(chars[..n])| == n
  {
    if n > 0 {
      FlattenSingles(chars, n - 1);
      assert chars[..n][..n - 1] == chars[..n - 1];
    }
  }

  /** Two positions with the same whole characters before them. */
  lemma SameChar(chars: seq<Bytes>, k: nat, k': nat, i: nat, top: nat)
    requires k <= |chars| && k' <= |chars| && i <= top
    requires |Flatten(chars[..k])| <= i && |Flatten(chars[..k'])| <= i
    requires k < |chars| ==> top < |Flatten(chars[..k + 1])|
    requires k' < |chars| ==> i < |Flatten(chars[..k' + 1])|
    ensures k == k'
  {
    if k < k' {
      FlattenMonotone(chars, k + 1, k');
    } else if k' < k {
      FlattenMonotone(chars, k' + 1, k);
    }
  }

  lemma {:induction false} FlattenMonotone(chars: seq<Bytes>, i: nat, j: nat)
    requires i <= j <= |chars|
    ensures |Flatten(chars[..i])| <= |Flatten(chars[..j])|
    decreases j - i
  {
    if i < j {
      FlattenMonotone(chars, i, j - 1);
      assert chars[..j][..j - 1] == chars[..j - 1];
    }
  }
}
