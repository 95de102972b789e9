/** Numbers as text, as JavaScript's toString(base) writes them. */
module Numbers {
  import opened Prelude
  import opened Text

  function Digit(n: nat): char
    requires n < 16
  {
    if n < 10 then (48 + n) as char else (87 + n) as char
  }

  function InBase(n: nat, base: nat): (r: string)
    requires 2 <= base <= 16
    ensures r != []
  {
    if n < base then [Digit(n)] else InBase(n / base, base) + [Digit(n % base)]
  }

  function Decimal(n: nat): string {
    InBase(n, 10)
  }

  function DigitValue(c: char): nat {
    if '0' <= c <= '9' then c as int - 48 else if 'a' <= c <= 'f' then c as int - 87 else 0
  }

  /** The number that a text of digits stands for. */
  function ReadBase(s: string, base: nat): nat {
    if s == [] then 0 else ReadBase(s[..|s| - 1], base) * base + DigitValue(s[|s| - 1])
  }

  predicate IsHexDigit(c: char) {
    '0' <= c <= '9' || 'a' <= c <= 'f'
  }

  lemma DigitReads(n: nat)
    requires n < 16
    ensures DigitValue(Digit(n)) == n && IsHexDigit(Digit(n))
  {}

  lemma DivMod(n: nat, base: nat)
    requires base >= 2
    ensures n / base * base + n % base == n && n % base < base
  {}

  /** What is written in a base reads as the number, and holds nothing but digits. */
  lemma {:induction false} InBaseReads(n: nat, base: nat)
    requires 2 <= base <= 16
    ensures ReadBase(InBase(n, base), base) == n
    ensures forall i | 0 <= i < |InBase(n, base)| :: IsHexDigit(InBase(n, base)[i])
    decreases n
  {
    hide Digit, DigitValue, IsHexDigit;
    if n < base {
      DigitReads(n);
      OneMoreDigit([], Digit(n), base);
      assert [] + [Digit(n)] == [Digit(n)];
      assert ReadBase([], base) == 0;
    } else {
      DivMod(n, base);
      DigitReads(n % base);
      InBaseReads(n / base, base);
      OneMoreDigit(InBase(n / base, base), Digit(n % base), base);
    }
  }

  lemma OneMoreDigit(s: string, c: char, base: nat)
    ensures ReadBase(s + [c], base) == ReadBase(s, base) * base + DigitValue(c)
  {
    hide DigitValue;
    assert (s + [c])[..|s|] == s;
  }

  /** Numbers in a base, joined by a separator that is no digit, are split into the same numbers. */
  lemma SplitNumbers(ns: seq<nat>, base: nat, sep: char)
    requires 2 <= base <= 16 && ns != [] && !IsHexDigit(sep)
    ensures var pieces := Split(Join(Written(ns, base), [sep]), [sep]);
            |pieces| == |ns| && forall i | 0 <= i < |ns| :: ReadBase(pieces[i], base) == ns[i]
  {
    hide InBase, ReadBase, Split, Join, Unbroken;
    var parts := Written(ns, base);
    forall i | 0 <= i < |ns|
      ensures Unbroken(parts[i], [sep]) && ReadBase(parts[i], base) == ns[i]
    {
      InBaseReads(ns[i], base);
      UnbrokenChar(parts[i], sep);
    }
    SplitJoin(parts, [sep]);
  }

  function Written(ns: seq<nat>, base: nat): (r: seq<string>)
    requires 2 <= base <= 16
    ensures |r| == |ns|
  {
    seq(|ns|, i requires 0 <= i < |ns| => InBase(ns[i], base))
  }

  lemma UnbrokenChar(part: string, sep: char)
    requires forall i | 0 <= i < |part| :: part[i] != sep
    ensures Unbroken(part, [sep])
  {
    forall j: nat | j < |part|
      ensures !OccursAt(part + [sep], [sep], j)
    {
      assert (part + [sep])[j..j + 1] == [part[j]];
    }
  }
}
