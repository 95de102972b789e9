/** String operations of JavaScript that several parsers of the program use. */
module Text {
  import opened Prelude

  const CRLF: string := "\r\n"

  /** The characters that the regular expression class \s matches, which are also those trim removes. */
  predicate IsSpace(c: char) {
    c == ' ' || '\t' <= c <= '\r' || c == '\U{00A0}' || c == '\U{1680}' || '\U{2000}' <= c <= '\U{200A}' ||
    c == '\U{2028}' || c == '\U{2029}' || c == '\U{202F}' || c == '\U{205F}' || c == '\U{3000}' || c == '\U{FEFF}'
  }

  /** In ASCII: the space, tab, line feed, vertical tab, form feed and carriage return. */
  lemma AsciiSpace(c: char)
    requires c as int < 128
    ensures IsSpace(c) <==> c as int in {9, 10, 11, 12, 13, 32}
  {}

  predicate IsQuote(c: char) {
    c == '\"' || c == '\''
  }

  predicate AllSpace(s: string) {
    forall c | c in s :: IsSpace(c)
  }

  function TrimLeft(s: string): string {
    if s != [] && IsSpace(s[0]) then TrimLeft(s[1..]) else s
  }

  function TrimRight(s: string): string {
    if s != [] && IsSpace(s[|s| - 1]) then TrimRight(s[..|s| - 1]) else s
  }

  function Trim(s: string): string {
    TrimRight(TrimLeft(s))
  }

  /** Nothing for trim to remove. */
  predicate Trimmed(s: string) {
    s == [] || (!IsSpace(s[0]) && !IsSpace(s[|s| - 1]))
  }

  lemma {:induction false} TrimPadded(left: string, s: string, right: string)
    requires AllSpace(left) && AllSpace(right) && Trimmed(s)
    ensures Trim(left + s + right) == s
  {
    TrimLeftPadded(left, s + right);
    assert left + s + right == left + (s + right);
    if s == [] {
      assert s + right == right;
      TrimLeftPadded(right, []);
      assert right + [] == right;
    } else {
      assert TrimLeft(s + right) == s + right;
      TrimRightPadded(s, right);
    }
  }

  lemma {:induction false} TrimLeftPadded(left: string, s: string)
    requires AllSpace(left)
    ensures TrimLeft(left + s) == TrimLeft(s)
    decreases |left|
  {
    if left == [] {
      assert left + s == s;
    } else {
      assert IsSpace(left[0]);
      assert (left + s)[1..] == left[1..] + s;
      TrimLeftPadded(left[1..], s);
    }
  }

  lemma {:induction false} TrimRightPadded(s: string, right: string)
    requires AllSpace(right) && s != [] && !IsSpace(s[|s| - 1])
    ensures TrimRight(s + right) == s
    decreases |right|
  {
    if right == [] {
      assert s + right == s;
    } else {
      var n := |right| - 1;
      assert IsSpace(right[n]);
      assert (s + right)[..|s + right| - 1] == s + right[..n];
      TrimRightPadded(s, right[..n]);
    }
  }

  lemma {:induction false} TrimRightPrefix(s: string)
    ensures |TrimRight(s)| <= |s| && TrimRight(s) == s[..|TrimRight(s)|]
    decreases |s|
  {
    hide IsSpace;
    if s != [] && IsSpace(s[|s| - 1]) {
      TrimRightPrefix(s[..|s| - 1]);
    }
  }

  function LowerChar(c: char): char {
    if 'A' <= c <= 'Z' then ((c as int) + 32) as char else c
  }

  /** Case folding of header names; outside ASCII a character is left alone. */
  function Lower(s: string): (r: string)
    ensures |r| == |s|
  {
    seq(|s|, i requires 0 <= i < |s| => LowerChar(s[i]))
  }

  /** The same letters, small or capital. */
  predicate Spelled(s: string, small: string) {
    |s| == |small| &&
    forall i | 0 <= i < |s| ::
      s[i] == small[i] || ('a' <= small[i] <= 'z' && s[i] as int == small[i] as int - 32)
  }

  /** Folding tells exactly the spellings of a name without capitals. */
  lemma LowerSpelled(s: string, small: string)
    requires forall i | 0 <= i < |small| :: !('A' <= small[i] <= 'Z')
    ensures Lower(s) == small <==> Spelled(s, small)
  {
    if |s| == |small| {
      forall i | 0 <= i < |s|
        ensures Lower(s)[i] == small[i]
                <==> s[i] == small[i] || ('a' <= small[i] <= 'z' && s[i] as int == small[i] as int - 32)
      {
        CapitalOf(s[i], small[i]);
      }
    }
  }

  lemma CapitalOf(c: char, small: char)
    requires !('A' <= small <= 'Z')
    ensures LowerChar(c) == small <==> c == small || ('a' <= small <= 'z' && c as int == small as int - 32)
  {
    if 'A' <= c <= 'Z' {
      assert ((c as int) + 32) as char as int == c as int + 32;
    }
  }

  predicate Contains(s: string, part: string) {
    IndexOf(s, part).Some?
  }

  /** The pieces between the occurrences of a separator, as JavaScript's split. */
  function Split(s: string, sep: string): (r: seq<string>)
    requires sep != []
    ensures r != []
    decreases |s|
  {
    match IndexOf(s, sep)
    case None => [s]
    case Some(i) => [s[..i]] + Split(s[i + |sep|..], sep)
  }

  function Join(parts: seq<string>, sep: string): string {
    if parts == [] then [] else if |parts| == 1 then parts[0] else parts[0] + sep + Join(parts[1..], sep)
  }

  /** The separator does not begin inside "part", even when "part" is followed by it. */
  ghost predicate Unbroken(part: string, sep: string) {
    forall j: nat | j < |part| :: !OccursAt(part + sep, sep, j)
  }

  lemma SplitFirst(part: string, sep: string, rest: string)
    requires sep != [] && Unbroken(part, sep)
    ensures Split(part + sep + rest, sep) == [part] + Split(rest, sep)
  {
    hide IndexOf;
    var s := part + sep + rest;
    assert OccursAt(s, sep, |part|);
    forall j: nat | j < |part|
      ensures !OccursAt(s, sep, j)
    {
      OccursAtPrefix(part + sep, rest, sep, j);
    }
    IndexOfIs(s, sep, |part|);
    assert s[..|part|] == part && s[|part| + |sep|..] == rest;
  }

  lemma SplitLast(part: string, sep: string)
    requires sep != [] && Unbroken(part, sep)
    ensures Split(part, sep) == [part]
  {
    hide OccursAt;
    if IndexOf(part, sep).Some? {
      var j := IndexOf(part, sep).value;
      NoRoom(part, sep, j);
      OccursAtPrefix(part, sep, sep, j);
      assert false;
    }
  }

  lemma NoRoom(part: string, sep: string, j: nat)
    requires sep != [] && OccursAt(part, sep, j)
    ensures j < |part| && j + |sep| <= |part|
  {}

  /** Splitting undoes joining when no piece holds the separator. */
  lemma {:induction false} SplitJoin(parts: seq<string>, sep: string)
    requires sep != [] && parts != [] && forall i | 0 <= i < |parts| :: Unbroken(parts[i], sep)
    ensures Split(Join(parts, sep), sep) == parts
    decreases |parts|
  {
    hide Split, Unbroken;
    if |parts| == 1 {
      SplitLast(parts[0], sep);
    } else {
      forall i | 0 <= i < |parts| - 1
        ensures Unbroken(parts[1..][i], sep)
      {
        assert parts[1..][i] == parts[i + 1];
      }
      SplitJoin(parts[1..], sep);
      SplitFirst(parts[0], sep, Join(parts[1..], sep));
    }
  }

  /** Every piece of a split is free of the separator, and joining the pieces restores the text. */
  lemma {:induction false} SplitPieces(s: string, sep: string)
    requires sep != []
    ensures Join(Split(s, sep), sep) == s
    ensures forall i | 0 <= i < |Split(s, sep)| :: IndexOf(Split(s, sep)[i], sep).None?
    decreases |s|
  {
    hide IndexOf;
    match IndexOf(s, sep)
    case None =>
    case Some(i) =>
      var rest := s[i + |sep|..];
      SplitPieces(rest, sep);
      assert Split(s, sep)[1..] == Split(rest, sep);
      assert OccursAt(s, sep, i);
      assert s == s[..i] + sep + rest;
      FirstPieceFree(s, sep, i);
  }

  lemma FirstPieceFree(s: string, sep: string, i: nat)
    requires sep != [] && IndexOf(s, sep) == Some(i)
    ensures i <= |s| && IndexOf(s[..i], sep).None?
  {
    hide OccursAt;
    assert i <= |s| by { NoRoom(s, sep, i); }
    if IndexOf(s[..i], sep).Some? {
      var j := IndexOf(s[..i], sep).value;
      NoRoom(s[..i], sep, j);
      assert s == s[..i] + s[i..];
      OccursAtPrefix(s[..i], s[i..], sep, j);
      assert false;
    }
  }
}
