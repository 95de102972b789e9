/** Parsing a request head (src/core/head-parser.ts, parse) and printing it again towards the origin
    (src/core/websocket.ts). Printed text leaves as UTF-8 and is read as Latin-1. */
module Handshake {
  import opened Prelude
  import opened Text

  type Field = (string, string)

  datatype Head = Head(verb: string, target: string, version: string, rawHeaders: seq<Field>)

  // ---- parsing ----

  function WordLength(s: string): (n: nat)
    ensures n <= |s|
  {
    if s != [] && !IsSpace(s[0]) then 1 + WordLength(s[1..]) else 0
  }

  predicate IsDigit(c: char) {
    '0' <= c <= '9'
  }

  /** Length of a version number "d" or "d.d" at the start of the text, zero when there is none. */
  function VersionLength(s: string): (n: nat)
    ensures n <= |s|
  {
    if s == [] || !IsDigit(s[0]) then 0 else if |s| >= 3 && s[1] == '.' && IsDigit(s[2]) then 3 else 1
  }

  /** The pattern "word, space, word, space, HTTP/version" at the start of the line. */
  function RequestLine(line: string): Option<(string, string, string)> {
    var n := WordLength(line);
    var afterVerb := line[n..];
    var t := TrimLeft(afterVerb);
    var m := WordLength(t);
    var afterTarget := t[m..];
    var v := TrimLeft(afterTarget);
    if n == 0 || t == afterVerb || m == 0 || v == afterTarget || !("HTTP/" <= v) || VersionLength(v[5..]) == 0 then None
    else Some((line[..n], t[..m], v[5..5 + VersionLength(v[5..])]))
  }

  function HeaderField(line: string): Option<Field> {
    match IndexOf(line, ":")
    case None => None
    case Some(c) => Some((Trim(line[..c]), Trim(line[c + 1..])))
  }

  function HeaderFields(lines: seq<string>): seq<Field> {
    if lines == [] then []
    else
      var rest := HeaderFields(lines[1..]);
      match HeaderField(lines[0]) case None => rest case Some(f) => [f] + rest
  }

  function Parse(text: string): Option<Head> {
    var lines := Split(text, CRLF);
    match RequestLine(lines[0])
    case None => None
    case Some(r) => Some(Head(r.0, r.1, r.2, HeaderFields(lines[1..])))
  }

  /** The parser of the program; the lower-cased lookup map is filled as it goes, later fields winning. */
  method ParseHead(text: string) returns (r: Option<Head>, headers: map<string, string>)
    ensures r == Parse(text)
    ensures r.Some? ==> headers == Lookup(r.value.rawHeaders)
  {
    hide RequestLine, HeaderField, Split;
    var lines := Split(text, CRLF);
    headers := map[];
    var m := RequestLine(lines[0]);
    if m.None? {
      return None, headers;
    }
    var rawHeaders: seq<Field> := [];
    var i := 1;
    while i < |lines|
      invariant 1 <= i <= |lines|
      invariant rawHeaders + HeaderFields(lines[i..]) == HeaderFields(lines[1..])
      invariant headers == Lookup(rawHeaders)
    {
      var line := lines[i];
      assert lines[i..][1..] == lines[i + 1..];
      i := i + 1;
      EmptyLine();
      if line == [] {
        continue;
      }
      var f := HeaderField(line);
      if f.None? {
        continue;
      }
      rawHeaders := rawHeaders + [f.value];
      headers := headers[Lower(f.value.0) := f.value.1];
      assert rawHeaders[..|rawHeaders| - 1] + [f.value] == rawHeaders;
    }
    assert lines[i..] == [] && rawHeaders + [] == rawHeaders;
    r := Some(Head(m.value.0, m.value.1, m.value.2, rawHeaders));
  }

  function Lookup(fields: seq<Field>): map<string, string> {
    if fields == [] then map[]
    else Lookup(fields[..|fields| - 1])[Lower(fields[|fields| - 1].0) := fields[|fields| - 1].1]
  }

  /** The lookup map holds exactly the names of the fields, in small letters, each with the value of its last field. */
  lemma {:induction false} LookupLast(fields: seq<Field>, k: string)
    ensures k in Lookup(fields) <==> exists i | 0 <= i < |fields| :: Lower(fields[i].0) == k
    ensures forall i | 0 <= i < |fields| && Lower(fields[i].0) == k &&
                       (forall j | i < j < |fields| :: Lower(fields[j].0) != k) ::
              k in Lookup(fields) && Lookup(fields)[k] == fields[i].1
    decreases |fields|
  {
    hide Lower;
    if fields != [] {
      var n := |fields| - 1;
      LookupLast(fields[..n], k);
      assert forall i | 0 <= i < n :: fields[..n][i] == fields[i];
      if k in Lookup(fields[..n]) {
        var i :| 0 <= i < |fields[..n]| && Lower(fields[..n][i].0) == k;
        assert Lower(fields[i].0) == k;
      }
    }
  }

  lemma EmptyLine()
    ensures HeaderField([]) == None
  {
    assert IndexOf("", ":").None?;
  }

  // ---- printing ----

  const PMD: string := "permessage-deflate"
  const CLIENT_NO_TAKEOVER: string := "; client_no_context_takeover"
  const SERVER_NO_TAKEOVER: string := "; server_no_context_takeover"
  const SAFE_DEFLATE: string := PMD + CLIENT_NO_TAKEOVER + SERVER_NO_TAKEOVER

  /** Compression is renegotiated without context takeover; all other fields are passed on. */
  function Renegotiated(f: Field): Field {
    if Lower(f.0) == "sec-websocket-extensions" && Contains(f.1, PMD) then (f.0, SAFE_DEFLATE) else f
  }

  /** The extensions header, in any spelling, offers compression without context takeover when it offers compression at
      all; its name, and every other field, stays as it is. */
  lemma RenegotiatedIff(f: Field)
    ensures Renegotiated(f)
            == if Spelled(f.0, "sec-websocket-extensions") && IndexOf(f.1, "permessage-deflate").Some?
               then (f.0, "permessage-deflate" + "; client_no_context_takeover" + "; server_no_context_takeover")
               else f
  {
    hide IndexOf, Lower, Spelled;
    LowerSpelled(f.0, "sec-websocket-extensions");
  }

  function Sent(fields: seq<Field>): (r: seq<Field>)
    ensures |r| == |fields|
  {
    seq(|fields|, i requires 0 <= i < |fields| => Renegotiated(fields[i]))
  }

  function FieldLine(f: Field): string {
    f.0 + ": " + f.1
  }

  function FieldLines(fields: seq<Field>): (r: seq<string>)
    ensures |r| == |fields|
  {
    seq(|fields|, i requires 0 <= i < |fields| => FieldLine(fields[i]))
  }

  function FirstLine(h: Head): string {
    h.verb + " " + h.target + " HTTP/" + h.version
  }

  /** The replayed handshake, for a target that is in origin form already. */
  function Print(h: Head): string {
    Join([FirstLine(h)] + FieldLines(Sent(h.rawHeaders)), CRLF) + CRLF + CRLF
  }

  method PrintHandshake(h: Head) returns (text: string)
    ensures text == Print(h)
  {
    hide Renegotiated;
    var lines := [FirstLine(h)];
    var fields := h.rawHeaders;
    for i := 0 to |fields|
      invariant lines == [FirstLine(h)] + FieldLines(Sent(fields))[..i]
    {
      var name, val := fields[i].0, fields[i].1;
      var f := Renegotiated((name, val));
      lines := lines + [FieldLine(f)];
    }
    assert FieldLines(Sent(fields))[..|fields|] == FieldLines(Sent(fields));
    text := Join(lines, CRLF) + CRLF + CRLF;
  }

  // ---- the wire in between ----

  /** What Latin-1 decoding makes of the UTF-8 bytes of a character below 256. */
  function RecodeChar(c: char): string {
    var n := c as int;
    if n < 128 || n >= 256 then [c] else [(192 + n / 64) as char, (128 + n % 64) as char]
  }

  predicate Latin1(s: string) {
    forall i | 0 <= i < |s| :: s[i] < '\U{0100}'
  }

  predicate Ascii(s: string) {
    forall i | 0 <= i < |s| :: s[i] < '\U{0080}'
  }

  function Recode(s: string): string {
    if s == [] then [] else RecodeChar(s[0]) + Recode(s[1..])
  }

  lemma {:induction false} RecodeAppend(a: string, b: string)
    ensures Recode(a + b) == Recode(a) + Recode(b)
    decreases |a|
  {
    hide RecodeChar;
    if a == [] {
      assert a + b == b;
    } else {
      assert (a + b)[0] == a[0] && (a + b)[1..] == a[1..] + b;
      RecodeAppend(a[1..], b);
    }
  }

  lemma RecodeCharLength(c: char)
    ensures 1 <= |RecodeChar(c)| <= 2
    ensures c < '\U{0100}' && |RecodeChar(c)| == 1 ==> c < '\U{0080}'
    ensures c < '\U{0080}' ==> RecodeChar(c) == [c]
  {}

  /** Recoding never shortens, and keeps the length only of ASCII text, which it leaves alone. */
  lemma {:induction false} RecodeLength(s: string)
    requires Latin1(s)
    ensures |Recode(s)| >= |s|
    ensures |Recode(s)| == |s| ==> Ascii(s)
    ensures Ascii(s) ==> Recode(s) == s
    decreases |s|
  {
    hide RecodeChar;
    if s != [] {
      RecodeLength(s[1..]);
      RecodeCharLength(s[0]);
      if |Recode(s)| == |s| {
        forall i | 0 <= i < |s|
          ensures s[i] < '\U{0080}'
        {
          assert i > 0 ==> s[i] == s[1..][i - 1];
        }
      }
    }
  }

  const A_GRAVE: char := '\U{00E0}'

  /** Recoded text holds no character of the upper quarter; no-break space stands in it only as the
      second half of a recoded no-break space or a-grave. */
  lemma {:induction false} RecodedChars(s: string)
    requires Latin1(s)
    ensures A_GRAVE !in Recode(s)
    ensures forall n | 0 <= n < |Recode(s)| && IsSpace(Recode(s)[n]) ::
              A_GRAVE in s || exists i | 0 <= i < |s| :: IsSpace(s[i])
    ensures s != [] && !IsSpace(s[0]) ==> Recode(s) != [] && !IsSpace(Recode(s)[0])
    decreases |s|
  {
    if s != [] {
      RecodedChars(s[1..]);
      var first := RecodeChar(s[0]);
      forall n | 0 <= n < |Recode(s)| && IsSpace(Recode(s)[n])
        ensures A_GRAVE in s || exists i | 0 <= i < |s| :: IsSpace(s[i])
      {
        if n < |first| {
          assert Recode(s)[n] == first[n];
          SpaceInChar(s[0], n);
          assert s[0] == A_GRAVE || IsSpace(s[0]);
        } else {
          assert Recode(s)[n] == Recode(s[1..])[n - |first|];
          if A_GRAVE !in s[1..] {
            var i :| 0 <= i < |s[1..]| && IsSpace(s[1..][i]);
            assert IsSpace(s[i + 1]);
          }
        }
      }
    }
  }

  lemma SpaceInChar(c: char, n: nat)
    requires c < '\U{0100}' && n < |RecodeChar(c)| && IsSpace(RecodeChar(c)[n])
    ensures c == A_GRAVE || IsSpace(c)
  {}

  /** The last character of recoded text is white space only after white space or a-grave. */
  lemma RecodedLast(s: string)
    requires Latin1(s) && s != []
    ensures Recode(s) != []
    ensures IsSpace(Recode(s)[|Recode(s)| - 1]) ==> IsSpace(s[|s| - 1]) || s[|s| - 1] == A_GRAVE
  {
    var p, c := s[..|s| - 1], s[|s| - 1];
    assert s == p + [c];
    RecodeAppend(p, [c]);
    assert [c][1..] == [];
    assert Recode([c]) == RecodeChar(c);
    var last := RecodeChar(c);
    assert Recode(s)[|Recode(s)| - 1] == last[|last| - 1];
    if IsSpace(last[|last| - 1]) {
      SpaceInChar(c, |last| - 1);
    }
  }

  // ---- well-formed heads ----

  predicate Word(s: string) {
    s != [] && forall i | 0 <= i < |s| :: !IsSpace(s[i])
  }

  predicate NoCrlf(s: string) {
    forall j | 0 <= j < |s| - 1 :: !(s[j] == '\r' && s[j + 1] == '\n')
  }

  predicate ValidVersion(v: string) {
    v != [] && VersionLength(v) == |v|
  }

  predicate ValidField(f: Field) {
    Latin1(f.0) && Latin1(f.1) && Trimmed(f.0) && Trimmed(f.1) && NoCrlf(f.0) && NoCrlf(f.1) && ':' !in f.0
  }

  predicate ValidHead(h: Head) {
    Latin1(h.verb) && Latin1(h.target) && Word(h.verb) && Word(h.target) && ValidVersion(h.version) &&
    forall i | 0 <= i < |h.rawHeaders| :: ValidField(h.rawHeaders[i])
  }

  predicate AsciiFields(fields: seq<Field>) {
    forall i | 0 <= i < |fields| :: Ascii(fields[i].0) && Ascii(fields[i].1)
  }

  // ---- the request line ----

  /** A word is read up to the space that follows it. */
  lemma {:induction false} WordRead(w: string, rest: string)
    requires (forall i | 0 <= i < |w| :: !IsSpace(w[i])) && (rest == [] || IsSpace(rest[0]))
    ensures WordLength(w + rest) == |w|
    decreases |w|
  {
    hide IsSpace;
    if w == [] {
      assert w + rest == rest;
    } else {
      assert (w + rest)[1..] == w[1..] + rest;
      forall i | 0 <= i < |w[1..]|
        ensures !IsSpace(w[1..][i])
      {
        assert w[1..][i] == w[i + 1];
      }
      WordRead(w[1..], rest);
    }
  }

  lemma {:induction false} WordIs(s: string)
    ensures forall i | 0 <= i < WordLength(s) :: !IsSpace(s[i])
    ensures WordLength(s) < |s| ==> IsSpace(s[WordLength(s)])
    decreases |s|
  {
    hide IsSpace;
    if s != [] && !IsSpace(s[0]) {
      WordIs(s[1..]);
      forall i | 0 <= i < WordLength(s)
        ensures !IsSpace(s[i])
      {
        assert i > 0 ==> s[i] == s[1..][i - 1];
      }
    }
  }

  /** Reading the first word of recoded text: it is the original word exactly when that is ASCII. */
  lemma RecodedWord(w: string, rest: string)
    requires Latin1(w) && Word(w) && rest != [] && IsSpace(rest[0])
    ensures var s := Recode(w) + rest;
            (s[..WordLength(s)] == w <==> Ascii(w)) && !IsSpace(s[0])
  {
    hide IsSpace;
    var s := Recode(w) + rest;
    var n := WordLength(s);
    RecodeLength(w);
    RecodedChars(w);
    if Ascii(w) {
      WordRead(w, rest);
    } else if s[..n] == w {
      WordIs(s);
    }
  }

  lemma SpaceIsSpace()
    ensures IsSpace(' ') && !IsSpace('H')
  {}

  lemma TrimLeftOnce(s: string)
    requires s != [] && !IsSpace(s[0])
    ensures TrimLeft(" " + s) == s
  {
    assert (" " + s)[1..] == s;
  }

  lemma VersionRead(v: string)
    requires ValidVersion(v)
    ensures var t := "HTTP/" + v; "HTTP/" <= t && t[5..] == v && t[5..5 + VersionLength(t[5..])] == v
  {
    var t := "HTTP/" + v;
    assert t[5..] == v;
  }

  /** The recoded request line is read back as it was exactly when method and target are ASCII. */
  lemma RecodedRequestLine(verb: string, target: string, version: string)
    requires Latin1(verb) && Latin1(target) && Word(verb) && Word(target) && ValidVersion(version)
    ensures RequestLine(Recode(verb) + " " + Recode(target) + " HTTP/" + version) == Some((verb, target, version))
            <==> Ascii(verb) && Ascii(target)
  {
    hide IsSpace, Recode, WordLength, TrimLeft, Latin1, Ascii, Word, ValidVersion, VersionLength;
    SpaceIsSpace();
    var http := "HTTP/" + version;
    var tail := " " + http;
    var line := Recode(verb) + " " + Recode(target) + " HTTP/" + version;
    var afterVerb := " " + (Recode(target) + tail);
    assert line == Recode(verb) + afterVerb;
    RecodedWord(verb, afterVerb);
    RecodedWord(target, tail);
    var n := WordLength(line);
    if line[..n] == verb {
      assert Ascii(verb);
      RecodeAscii(verb);
      assert line[n..] == afterVerb;
      var t := Recode(target) + tail;
      TrimLeftOnce(t);
      var m := WordLength(t);
      if t[..m] == target {
        RecodeAscii(target);
        assert t[m..] == tail;
        TrimLeftOnce(http);
        VersionRead(version);
        WordNotEmpty(verb);
        WordNotEmpty(target);
        VersionNotEmpty(version);
      }
    }
  }

  lemma RecodeAscii(s: string)
    requires Latin1(s) && Ascii(s)
    ensures Recode(s) == s
  {
    RecodeLength(s);
  }

  lemma WordNotEmpty(s: string)
    ensures Word(s) ==> |s| > 0
  {}

  lemma VersionNotEmpty(v: string)
    ensures ValidVersion(v) ==> VersionLength(v) > 0
  {}

  // ---- header lines ----

  /** Trimming recoded text gives the original back exactly when that is ASCII. */
  lemma TrimRecoded(s: string)
    requires Latin1(s) && Trimmed(s)
    ensures Trim(Recode(s)) == s <==> Ascii(s)
  {
    hide IsSpace;
    RecodeLength(s);
    if s != [] {
      RecodedChars(s);
      var r := Recode(s);
      assert TrimLeft(r) == r;
      if Ascii(s) {
        assert TrimRight(s) == s;
      } else if Trim(r) == s {
        TrimRightPrefix(r);
        RecodedLast(s);
      }
    }
  }

  lemma {:induction false} NoColon(s: string)
    requires Latin1(s) && ':' !in s
    ensures ':' !in Recode(s)
    decreases |s|
  {
    if s != [] {
      NoColon(s[1..]);
    }
  }

  lemma ColonAt(name: string, rest: string)
    requires ':' !in name
    ensures IndexOf(name + ":" + rest, ":") == Some(|name|)
  {
    var s := name + ":" + rest;
    forall j: nat | j < |name|
      ensures !OccursAt(s, ":", j)
    {
      assert s[j..j + 1] == [name[j]];
    }
    assert s[|name|..|name| + 1] == ":";
    IndexOfIs(s, ":", |name|);
  }

  lemma RecodedField(f: Field)
    requires ValidField(f)
    ensures HeaderField(Recode(FieldLine(f))) == Some((Trim(Recode(f.0)), Trim(Recode(f.1))))
    ensures HeaderField(Recode(FieldLine(f))) == Some(f) <==> Ascii(f.0) && Ascii(f.1)
  {
    hide Trim, IndexOf, IsSpace, Trimmed, Recode, Ascii, NoCrlf, Latin1;
    var name, val := Recode(f.0), Recode(f.1);
    RecodeAppend(f.0 + ": ", f.1);
    RecodeAppend(f.0, ": ");
    AsciiColon();
    NoColon(f.0);
    var line := Recode(FieldLine(f));
    assert line == name + ":" + (" " + val);
    ColonAt(name, " " + val);
    assert line[..|name|] == name && line[|name| + 1..] == " " + val;
    TrimLeading(val);
    TrimRecoded(f.0);
    TrimRecoded(f.1);
  }

  lemma AsciiColon()
    ensures Recode(": ") == ": "
  {
    RecodeLength(": ");
  }

  lemma TrimLeading(s: string)
    ensures Trim(" " + s) == Trim(s)
  {
    assert (" " + s)[1..] == s;
  }

  /** The lines of the recoded header block parse, each on its own. */
  lemma {:induction false} RecodedFields(fields: seq<Field>, ends: seq<string>)
    requires forall i | 0 <= i < |fields| :: ValidField(fields[i])
    requires ends == ["", ""]
    ensures var r := HeaderFields(Recoded(FieldLines(fields)) + ends);
            |r| == |fields| && (r == fields <==> AsciiFields(fields))
    decreases |fields|
  {
    hide HeaderField, ValidField, FieldLine, Ascii;
    var lines := Recoded(FieldLines(fields)) + ends;
    if fields == [] {
      EmptyLine();
      assert lines == ends && ends[1..] == [""] && ends[1..][1..] == [];
      assert HeaderFields(ends[1..]) == [];
    } else {
      var rest := fields[1..];
      assert lines[1..] == Recoded(FieldLines(rest)) + ends;
      RecodedFields(rest, ends);
      RecodedField(fields[0]);
      var tail := HeaderFields(lines[1..]);
      assert fields == [fields[0]] + rest;
      assert AsciiFields(fields) <==> Ascii(fields[0].0) && Ascii(fields[0].1) && AsciiFields(rest) by {
        AsciiSplit(fields);
      }
      var head := HeaderField(lines[0]).value;
      assert HeaderFields(lines) == [head] + tail;
      assert [head] + tail == [fields[0]] + rest ==> head == fields[0] && tail == rest by {
        if [head] + tail == [fields[0]] + rest {
          assert ([head] + tail)[1..] == tail && ([fields[0]] + rest)[1..] == rest;
          assert ([head] + tail)[0] == head;
        }
      }
    }
  }

  lemma AsciiSplit(fields: seq<Field>)
    requires fields != []
    ensures AsciiFields(fields) <==> Ascii(fields[0].0) && Ascii(fields[0].1) && AsciiFields(fields[1..])
  {
    hide Ascii;
    if Ascii(fields[0].0) && Ascii(fields[0].1) && AsciiFields(fields[1..]) {
      forall i | 0 <= i < |fields|
        ensures Ascii(fields[i].0) && Ascii(fields[i].1)
      {
        assert i > 0 ==> fields[i] == fields[1..][i - 1];
      }
    }
  }

  function Recoded(lines: seq<string>): (r: seq<string>)
    ensures |r| == |lines|
  {
    seq(|lines|, i requires 0 <= i < |lines| => Recode(lines[i]))
  }

  // ---- lines of the whole text ----

  lemma NoCrlfAppend(a: string, b: string)
    requires NoCrlf(a) && NoCrlf(b)
    requires a == [] || b == [] || a[|a| - 1] != '\r' || b[0] != '\n'
    ensures NoCrlf(a + b)
  {
    var s := a + b;
    forall j | 0 <= j < |s| - 1
      ensures !(s[j] == '\r' && s[j + 1] == '\n')
    {
      if j + 1 < |a| {
        assert s[j] == a[j] && s[j + 1] == a[j + 1];
      } else if j >= |a| {
        assert s[j] == b[j - |a|] && s[j + 1] == b[j - |a| + 1];
      }
    }
  }

  lemma UnbrokenLine(s: string)
    requires NoCrlf(s)
    ensures Unbroken(s, CRLF)
  {
    var t := s + CRLF;
    forall j: nat | j < |s|
      ensures !OccursAt(t, CRLF, j)
    {
      assert t[j..j + 2] == [t[j], t[j + 1]];
    }
  }

  lemma {:induction false} NoCrlfRecoded(s: string)
    requires NoCrlf(s)
    ensures NoCrlf(Recode(s))
    decreases |s|
  {
    if s != [] {
      var first, rest := RecodeChar(s[0]), Recode(s[1..]);
      forall j | 0 <= j < |s[1..]| - 1
        ensures !(s[1..][j] == '\r' && s[1..][j + 1] == '\n')
      {
        assert s[1..][j] == s[j + 1] && s[1..][j + 1] == s[j + 2];
      }
      NoCrlfRecoded(s[1..]);
      assert NoCrlf(first);
      if s[0] == '\r' && rest != [] {
        assert s[1] != '\n';
        assert rest[0] == RecodeChar(s[1])[0];
      }
      NoCrlfAppend(first, rest);
    }
  }

  lemma FieldLineWhole(f: Field)
    requires ValidField(f)
    ensures NoCrlf(FieldLine(f)) && FieldLine(f) != []
  {
    NoCrlfAppend(f.0, ": ");
    NoCrlfAppend(f.0 + ": ", f.1);
  }

  lemma WordWhole(w: string)
    requires Word(w)
    ensures NoCrlf(w) && w[|w| - 1] != '\r'
  {}

  lemma FirstLineWhole(h: Head)
    requires ValidHead(h)
    ensures NoCrlf(FirstLine(h)) && FirstLine(h) != []
  {
    WordWhole(h.verb);
    WordWhole(h.target);
    NoCrlfAppend(h.verb, " ");
    NoCrlfAppend(h.verb + " ", h.target);
    NoCrlfAppend(h.verb + " " + h.target, " HTTP/");
    NoCrlfAppend(h.verb + " " + h.target + " HTTP/", h.version);
  }

  lemma RenegotiatedValid(f: Field)
    requires ValidField(f)
    ensures ValidField(Renegotiated(f)) && (Renegotiated(f) == f || Renegotiated(f) == (f.0, SAFE_DEFLATE))
  {
    hide Contains, Lower;
    SafeDeflateValid();
  }

  lemma SafeDeflateValid()
    ensures Latin1(SAFE_DEFLATE) && Trimmed(SAFE_DEFLATE) && NoCrlf(SAFE_DEFLATE)
  {
    hide NoCrlf, IsSpace;
    PmdPlain();
    ClientPlain();
    ServerPlain();
    NoCrlfAppend(PMD, CLIENT_NO_TAKEOVER);
    NoCrlfAppend(PMD + CLIENT_NO_TAKEOVER, SERVER_NO_TAKEOVER);
    assert SAFE_DEFLATE[0] == PMD[0];
    assert SAFE_DEFLATE[|SAFE_DEFLATE| - 1] == SERVER_NO_TAKEOVER[|SERVER_NO_TAKEOVER| - 1];
  }

  lemma PmdPlain()
    ensures Latin1(PMD) && NoCrlf(PMD) && PMD != [] && !IsSpace(PMD[0]) && PMD[|PMD| - 1] != '\r'
  {}

  lemma ClientPlain()
    ensures var s := CLIENT_NO_TAKEOVER; Latin1(s) && NoCrlf(s) && s != [] && s[|s| - 1] != '\r'
  {}

  lemma ServerPlain()
    ensures var s := SERVER_NO_TAKEOVER; Latin1(s) && NoCrlf(s) && s != [] && !IsSpace(s[|s| - 1])
  {}

  lemma {:induction false} RecodeJoin(lines: seq<string>)
    ensures Recode(Join(lines, CRLF)) == Join(Recoded(lines), CRLF)
    decreases |lines|
  {
    hide Recode;
    AsciiCrlf();
    if |lines| > 1 {
      RecodeJoin(lines[1..]);
      assert Recoded(lines)[1..] == Recoded(lines[1..]);
      RecodeAppend(lines[0] + CRLF, Join(lines[1..], CRLF));
      RecodeAppend(lines[0], CRLF);
    } else if |lines| == 1 {
      assert Recoded(lines)[0] == Recode(lines[0]);
    } else {
      assert Recode("") == "" by { NothingRecoded(); }
    }
  }

  lemma NothingRecoded()
    ensures Recode("") == ""
  {}

  lemma AsciiCrlf()
    ensures Recode(CRLF) == CRLF
  {
    RecodeLength(CRLF);
  }

  lemma {:induction false} JoinSnoc(lines: seq<string>)
    requires lines != []
    ensures Join(lines + ["", ""], CRLF) == Join(lines, CRLF) + CRLF + CRLF
    decreases |lines|
  {
    if |lines| == 1 {
      var all := lines + ["", ""];
      assert all[1..] == ["", ""] && ["", ""][1..] == [""];
      assert Join(["", ""], CRLF) == "" + CRLF + "";
    } else {
      assert (lines + ["", ""])[1..] == lines[1..] + ["", ""];
      JoinSnoc(lines[1..]);
    }
  }

  /** The lines of a printed head, up to the empty ones that end it. */
  function LinesOf(h: Head): seq<string> {
    [FirstLine(h)] + FieldLines(Sent(h.rawHeaders))
  }

  lemma PrintedLines(h: Head)
    requires ValidHead(h)
    ensures Recode(Print(h)) == Join(Recoded(LinesOf(h)) + ["", ""], CRLF)
    ensures forall i | 0 <= i < |LinesOf(h)| :: NoCrlf(LinesOf(h)[i]) && LinesOf(h)[i] != []
  {
    hide Recode, NoCrlf, Renegotiated, FieldLine, FirstLine, ValidField;
    var lines := LinesOf(h);
    JoinSnoc(lines);
    RecodeJoin(lines + ["", ""]);
    assert Recoded(lines + ["", ""]) == Recoded(lines) + ["", ""] by {
      NothingRecoded();
    }
    FirstLineWhole(h);
    var fields := h.rawHeaders;
    forall i | 0 <= i < |lines|
      ensures NoCrlf(lines[i]) && lines[i] != []
    {
      if i > 0 {
        RenegotiatedValid(fields[i - 1]);
        FieldLineWhole(Renegotiated(fields[i - 1]));
      }
    }
  }

  /** The text splits into the recoded lines and two empty ones. */
  lemma PrintedSplit(h: Head)
    requires ValidHead(h)
    ensures Split(Recode(Print(h)), CRLF) == Recoded(LinesOf(h)) + ["", ""]
  {
    hide Recode, NoCrlf, Print, LinesOf, Split, Join, ValidHead, Unbroken;
    PrintedLines(h);
    var all := Recoded(LinesOf(h)) + ["", ""];
    forall i | 0 <= i < |all|
      ensures Unbroken(all[i], CRLF)
    {
      if i < |LinesOf(h)| {
        NoCrlfRecoded(LinesOf(h)[i]);
      } else {
        EmptyWhole();
      }
      UnbrokenLine(all[i]);
    }
    SplitJoin(all, CRLF);
  }

  lemma EmptyWhole()
    ensures NoCrlf("")
  {}

  /** What the next parser of the replayed handshake reads: the same method, target, version and header
      list (up to the compression rewrite) if and only if all of them are ASCII. */
  lemma ReplayRoundTrip(h: Head)
    requires ValidHead(h)
    ensures Parse(Recode(Print(h))) == Some(h.(rawHeaders := Sent(h.rawHeaders)))
            <==> Ascii(h.verb) && Ascii(h.target) && AsciiFields(Sent(h.rawHeaders))
  {
    hide Recode, Print, Split, RequestLine, HeaderFields, Ascii, Renegotiated, ValidField, AsciiFields;
    hide FieldLines, Latin1, Word, ValidVersion;
    var fields := Sent(h.rawHeaders);
    PrintedSplit(h);
    var lines := Recoded(LinesOf(h)) + ["", ""];
    assert lines[0] == Recode(FirstLine(h));
    assert lines[1..] == Recoded(FieldLines(fields)) + ["", ""];
    FirstLineRecoded(h);
    RecodedRequestLine(h.verb, h.target, h.version);
    forall i | 0 <= i < |fields|
      ensures ValidField(fields[i])
    {
      RenegotiatedValid(h.rawHeaders[i]);
    }
    RecodedFields(fields, ["", ""]);
  }

  lemma FirstLineRecoded(h: Head)
    requires ValidHead(h)
    ensures Recode(FirstLine(h)) == Recode(h.verb) + " " + Recode(h.target) + " HTTP/" + h.version
  {
    hide Recode;
    RecodeAppend(h.verb + " " + h.target + " HTTP/", h.version);
    RecodeAppend(h.verb + " " + h.target, " HTTP/");
    RecodeAppend(h.verb + " ", h.target);
    RecodeAppend(h.verb, " ");
    VersionAscii(h.version);
    assert Recode(" ") == " " && Recode(" HTTP/") == " HTTP/" by {
      RecodeLength(" ");
      RecodeLength(" HTTP/");
    }
  }

  lemma VersionAscii(v: string)
    requires ValidVersion(v)
    ensures Recode(v) == v
  {
    assert Ascii(v);
    RecodeLength(v);
  }

  // ---- where the head ends ----

  const END_OF_HEAD: string := "\r\n\r\n"

  lemma {:induction false} OnlyAtEnd(lines: seq<string>)
    requires lines != [] && forall i | 0 <= i < |lines| :: NoCrlf(lines[i]) && lines[i] != []
    ensures var t := Join(lines + ["", ""], CRLF);
            |t| >= 4 && t[0] == lines[0][0] && IndexOf(t, END_OF_HEAD) == Some(|t| - 4) && !OccursAt(t, CRLF, 0)
    decreases |lines|
  {
    hide IndexOf, NoCrlf;
    var all := lines + ["", ""];
    var t := Join(all, CRLF);
    var rest := Join(all[1..], CRLF);
    var l := lines[0];
    assert t == l + CRLF + rest;
    UnbrokenLine(l);
    if |lines| == 1 {
      assert all[1..] == ["", ""] && ["", ""][1..] == [""];
      assert rest == CRLF;
      TerminatorAt(l, rest, 0);
    } else {
      assert all[1..] == lines[1..] + ["", ""];
      OnlyAtEnd(lines[1..]);
      TerminatorAt(l, rest, |rest| - 2);
    }
  }

  /** A terminator is two line ends in a row. */
  lemma TwoEnds(t: string, j: nat)
    ensures OccursAt(t, END_OF_HEAD, j) <==> OccursAt(t, CRLF, j) && OccursAt(t, CRLF, j + 2)
  {
    if j + 4 <= |t| {
      assert t[j..j + 4] == t[j..j + 2] + t[j + 2..j + 4];
      assert END_OF_HEAD == CRLF + CRLF;
      if OccursAt(t, END_OF_HEAD, j) {
        assert t[j..j + 4][..2] == CRLF && t[j..j + 4][2..] == CRLF;
      }
    }
  }

  /** Where line ends are when one more line stands in front. */
  lemma EndsAfterLine(l: string, rest: string, j: nat)
    requires Unbroken(l, CRLF)
    ensures var t := l + CRLF + rest;
            OccursAt(t, CRLF, j) <==> j == |l| || (j >= |l| + 2 && OccursAt(rest, CRLF, j - |l| - 2))
  {
    var t := l + CRLF + rest;
    if j < |l| {
      OccursAtPrefix(l + CRLF, rest, CRLF, j);
    } else if j == |l| {
      assert t[j..j + 2] == CRLF;
    } else if j == |l| + 1 {
      assert t[j] == '\n';
      assert j + 2 <= |t| ==> t[j..j + 2][0] == '\n';
    } else if j + 2 <= |t| {
      assert t[j..j + 2] == rest[j - |l| - 2..j - |l|];
    }
  }

  /** One more line in front moves the terminator by its length. */
  lemma TerminatorAt(l: string, rest: string, k: nat)
    requires l != [] && Unbroken(l, CRLF)
    requires if k == 0 then rest == CRLF
             else !OccursAt(rest, CRLF, 0) && k + 2 == |rest| && k >= 2 && IndexOf(rest, END_OF_HEAD) == Some(k - 2)
    ensures var t := l + CRLF + rest;
            IndexOf(t, END_OF_HEAD) == Some(|t| - 4) && !OccursAt(t, CRLF, 0)
  {
    var t := l + CRLF + rest;
    var n := |t| - 4;
    hide IndexOf, OccursAt, Unbroken;
    EndsAfterLine(l, rest, 0);
    forall j: nat | j <= n
      ensures OccursAt(t, END_OF_HEAD, j) <==> j == n
    {
      TwoEnds(t, j);
      EndsAfterLine(l, rest, j);
      EndsAfterLine(l, rest, j + 2);
      if j >= |l| + 2 {
        TwoEnds(rest, j - |l| - 2);
      } else if k == 0 {
        LoneEnd();
      }
    }
    IndexOfIs(t, END_OF_HEAD, n);
  }

  lemma LoneEnd()
    ensures OccursAt(CRLF, CRLF, 0)
  {}

  /** The printed head, as it is read from the wire, has its first CRLFCRLF at its end and nowhere else. */
  lemma PrintedEndsOnce(h: Head)
    requires ValidHead(h)
    ensures var t := Recode(Print(h)); |t| >= 4 && IndexOf(t, END_OF_HEAD) == Some(|t| - 4)
  {
    hide Recode, NoCrlf, Print, LinesOf, Join, ValidHead, IndexOf;
    PrintedLines(h);
    var lines := LinesOf(h);
    assert lines != [] by { HasFirstLine(h); }
    forall i | 0 <= i < |lines|
      ensures NoCrlf(Recoded(lines)[i]) && Recoded(lines)[i] != []
    {
      NoCrlfRecoded(lines[i]);
      RecodedNotEmpty(lines[i]);
    }
    OnlyAtEnd(Recoded(lines));
  }

  lemma HasFirstLine(h: Head)
    ensures LinesOf(h) != []
  {}

  lemma RecodedNotEmpty(s: string)
    requires s != []
    ensures Recode(s) != []
  {}

  // ---- every parsed head is well formed ----

  lemma NoCrlfPiece(s: string)
    requires IndexOf(s, CRLF).None?
    ensures NoCrlf(s)
  {
    forall j | 0 <= j < |s| - 1
      ensures !(s[j] == '\r' && s[j + 1] == '\n')
    {
      assert !OccursAt(s, CRLF, j);
      assert s[j..j + 2] == [s[j], s[j + 1]];
    }
  }

  lemma SliceValid(s: string, i: nat, j: nat)
    requires i <= j <= |s| && Latin1(s) && NoCrlf(s)
    ensures Latin1(s[i..j]) && NoCrlf(s[i..j])
  {
    var t := s[i..j];
    assert forall k | 0 <= k < |t| :: t[k] == s[k + i];
  }

  lemma {:induction false} TrimLeftSuffix(s: string)
    ensures |TrimLeft(s)| <= |s| && TrimLeft(s) == s[|s| - |TrimLeft(s)|..]
    ensures TrimLeft(s) != [] ==> !IsSpace(TrimLeft(s)[0])
    decreases |s|
  {
    hide IsSpace;
    if s != [] && IsSpace(s[0]) {
      TrimLeftSuffix(s[1..]);
    }
  }

  lemma {:induction false} TrimRightEnds(s: string)
    ensures TrimRight(s) != [] ==> !IsSpace(TrimRight(s)[|TrimRight(s)| - 1])
    decreases |s|
  {
    hide IsSpace;
    if s != [] && IsSpace(s[|s| - 1]) {
      TrimRightEnds(s[..|s| - 1]);
    }
  }

  lemma TrimValid(s: string)
    requires Latin1(s) && NoCrlf(s)
    ensures Trimmed(Trim(s)) && Latin1(Trim(s)) && NoCrlf(Trim(s))
    ensures exists i, j | 0 <= i <= j <= |s| :: Trim(s) == s[i..j]
  {
    hide IsSpace, NoCrlf, Latin1;
    var t := TrimLeft(s);
    TrimLeftSuffix(s);
    TrimRightPrefix(t);
    TrimRightEnds(t);
    var r := TrimRight(t);
    var i := |s| - |t|;
    assert r == s[i..i + |r|];
    assert r != [] ==> r[0] == t[0];
    SliceValid(s, i, i + |r|);
  }

  lemma FieldValid(line: string)
    requires Latin1(line) && NoCrlf(line) && HeaderField(line).Some?
    ensures ValidField(HeaderField(line).value)
  {
    hide IsSpace, NoCrlf, Latin1, Trim, Trimmed, IndexOf;
    var c := IndexOf(line, ":").value;
    FirstColon(line, c);
    SliceValid(line, 0, c);
    SliceValid(line, c + 1, |line|);
    assert line[0..c] == line[..c] && line[c + 1..|line|] == line[c + 1..];
    TrimValid(line[..c]);
    TrimValid(line[c + 1..]);
  }

  lemma FirstColon(s: string, c: nat)
    requires IndexOf(s, ":") == Some(c)
    ensures c < |s| && ':' !in s[..c]
  {
    forall j | 0 <= j < c
      ensures s[j] != ':'
    {
      assert !OccursAt(s, ":", j);
      assert s[j..j + 1] == [s[j]];
    }
  }

  lemma {:induction false} FieldsValid(lines: seq<string>)
    requires forall i | 0 <= i < |lines| :: Latin1(lines[i]) && NoCrlf(lines[i])
    ensures forall i | 0 <= i < |HeaderFields(lines)| :: ValidField(HeaderFields(lines)[i])
    decreases |lines|
  {
    hide NoCrlf, Latin1, ValidField, HeaderField;
    if lines != [] {
      FieldsValid(lines[1..]);
      if HeaderField(lines[0]).Some? {
        FieldValid(lines[0]);
      }
    }
  }

  lemma RequestLineValid(line: string)
    requires Latin1(line) && RequestLine(line).Some?
    ensures var r := RequestLine(line).value;
            Word(r.0) && Word(r.1) && Latin1(r.0) && Latin1(r.1) && ValidVersion(r.2)
  {
    hide IsSpace, TrimLeft;
    WordIs(line);
    var afterVerb := line[WordLength(line)..];
    var t := TrimLeft(afterVerb);
    TrimLeftSuffix(afterVerb);
    WordIs(t);
    var k := |line| - |t|;
    assert t == line[k..];
    var v := TrimLeft(t[WordLength(t)..])[5..];
    assert v[..VersionLength(v)][..] == v[..VersionLength(v)];
  }

  lemma {:induction false} PieceLatin1(text: string)
    requires Latin1(text)
    ensures forall i | 0 <= i < |Split(text, CRLF)| :: Latin1(Split(text, CRLF)[i])
    decreases |text|
  {
    hide IndexOf;
    match IndexOf(text, CRLF)
    case None =>
    case Some(i) =>
      NoRoom(text, CRLF, i);
      PieceLatin1(text[i + 2..]);
      assert Split(text, CRLF)[1..] == Split(text[i + 2..], CRLF);
  }

  lemma ParseIsValid(text: string)
    requires Latin1(text) && Parse(text).Some?
    ensures ValidHead(Parse(text).value)
  {
    hide NoCrlf, Latin1, ValidField, HeaderFields, RequestLine, Split, IndexOf, Word, ValidVersion;
    var lines := Split(text, CRLF);
    PieceLatin1(text);
    SplitPieces(text, CRLF);
    forall i | 0 <= i < |lines|
      ensures Latin1(lines[i]) && NoCrlf(lines[i])
    {
      NoCrlfPiece(lines[i]);
    }
    RequestLineValid(lines[0]);
    FieldsValid(lines[1..]);
  }

  /** Printing undoes parsing for every head the parser accepts, on the wire and exactly when the head is
      ASCII; and what is printed ends where its first CRLFCRLF is. */
  lemma ParsedReplay(text: string)
    requires Latin1(text) && Parse(text).Some?
    ensures var h := Parse(text).value;
            var sent := h.(rawHeaders := Sent(h.rawHeaders));
            var wire := Recode(Print(h));
            (Parse(wire) == Some(sent) <==> Ascii(h.verb) && Ascii(h.target) && AsciiFields(sent.rawHeaders)) &&
            IndexOf(wire, END_OF_HEAD) == Some(|wire| - 4)
  {
    hide ValidHead, Parse, Recode, Print, Sent, Ascii, AsciiFields, IndexOf, Latin1;
    ParseIsValid(text);
    ReplayRoundTrip(Parse(text).value);
    PrintedEndsOnce(Parse(text).value);
  }
}
