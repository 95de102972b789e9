/** Content encodings (src/core/encoding.ts) and the writing of a buffered response: HTTP/1 in
    src/core/request-handler.ts, HTTP/2 in src/core/h2-handler.ts. */
module Encoding {
  import opened Prelude
  import opened Text
  import opened Numbers
  import opened Headers

  /** The decompressors; None is an exception. */
  datatype Codec = Codec(gunzip: seq<byte> -> Option<seq<byte>>, inflate: seq<byte> -> Option<seq<byte>>,
                         inflateRaw: seq<byte> -> Option<seq<byte>>, brotli: seq<byte> -> Option<seq<byte>>)

  function Token(encoding: string): string {
    Lower(Trim(encoding))
  }

  predicate IsDecodable(encoding: string) {
    var e := Token(encoding);
    e == "gzip" || e == "x-gzip" || e == "deflate" || e == "br"
  }

  function OrElse(a: Option<seq<byte>>, b: seq<byte>): seq<byte> {
    match a case Some(x) => x case None => b
  }

  /** Decoding never fails: what cannot be decoded stays as it is. */
  function DecodeBody(codec: Codec, body: seq<byte>, encoding: string): seq<byte> {
    var e := Token(encoding);
    if e == "gzip" || e == "x-gzip" then OrElse(codec.gunzip(body), body)
    else if e == "deflate" then
      (match codec.inflate(body) case Some(x) => x case None => OrElse(codec.inflateRaw(body), body))
    else if e == "br" then OrElse(codec.brotli(body), body)
    else body
  }

  lemma NotDecodable(codec: Codec, body: seq<byte>, encoding: string)
    requires !IsDecodable(encoding)
    ensures DecodeBody(codec, body, encoding) == body
  {}

  /** Each encoding by its name, in any spelling and with any white space around it: gzip and x-gzip are unzipped,
      deflate is inflated, or inflated raw when that fails, and br is left to Brotli; what fails altogether, and any
      other encoding, leaves the body as it is. */
  lemma Decompressors(codec: Codec, body: seq<byte>, left: string, name: string, right: string)
    requires AllSpace(left) && AllSpace(right) && Trimmed(name)
    ensures var r := DecodeBody(codec, body, left + name + right);
            (Spelled(name, "gzip") || Spelled(name, "x-gzip") ==>
               r == match codec.gunzip(body) case Some(x) => x case None => body) &&
            (Spelled(name, "deflate") ==>
               r == match codec.inflate(body)
                    case Some(x) => x
                    case None => match codec.inflateRaw(body) case Some(x) => x case None => body) &&
            (Spelled(name, "br") ==> r == match codec.brotli(body) case Some(x) => x case None => body) &&
            (!Spelled(name, "gzip") && !Spelled(name, "x-gzip") && !Spelled(name, "deflate") && !Spelled(name, "br") ==>
               r == body)
  {
    hide Lower, Trim, Trimmed, AllSpace, Spelled;
    TrimPadded(left, name, right);
    LowerSpelled(name, "gzip");
    LowerSpelled(name, "x-gzip");
    LowerSpelled(name, "deflate");
    LowerSpelled(name, "br");
  }

  const CE: string := "content-encoding"
  const CL: string := "content-length"

  // ---- grouping header fields by name ----

  type Group = (string, seq<string>)

  /** A JavaScript Map from exact name to values, filled in field order. */
  function AddTo(groups: seq<Group>, field: (string, string)): seq<Group> {
    if groups == [] then [(field.0, [field.1])]
    else if groups[0].0 == field.0 then [(field.0, groups[0].1 + [field.1])] + groups[1..]
    else [groups[0]] + AddTo(groups[1..], field)
  }

  function Grouped(fields: Fields): seq<Group> {
    if fields == [] then [] else AddTo(Grouped(fields[..|fields| - 1]), fields[|fields| - 1])
  }

  function ExactValues(fields: Fields, name: string): seq<string> {
    if fields == [] then []
    else ExactValues(fields[..|fields| - 1], name)
         + if fields[|fields| - 1].0 == name then [fields[|fields| - 1].1] else []
  }

  function GroupValues(groups: seq<Group>, name: string): seq<string> {
    if groups == [] then [] else if groups[0].0 == name then groups[0].1 else GroupValues(groups[1..], name)
  }

  predicate DistinctNames(groups: seq<Group>) {
    forall i, j | 0 <= i < j < |groups| :: groups[i].0 != groups[j].0
  }

  /** Node's outgoing headers: names compare without case, and setting one again replaces it. */
  type Outgoing = map<string, seq<string>>

  function SetAll(out: Outgoing, groups: seq<Group>): Outgoing
    decreases |groups|
  {
    if groups == [] then out else SetAll(out[Lower(groups[0].0) := groups[0].1], groups[1..])
  }

  function ValuesOut(out: Outgoing, key: string): seq<string> {
    if key in out then out[key] else []
  }

  lemma {:induction false} AddToValues(groups: seq<Group>, field: (string, string), name: string)
    ensures GroupValues(AddTo(groups, field), name)
            == GroupValues(groups, name) + if field.0 == name then [field.1] else []
    ensures DistinctNames(groups) ==> DistinctNames(AddTo(groups, field))
    ensures forall g | g in AddTo(groups, field) :: g.0 == field.0 || exists h | h in groups :: h.0 == g.0
    decreases |groups|
  {
    var out := AddTo(groups, field);
    if groups == [] {
      assert [(field.0, [field.1])][1..] == [];
    } else if groups[0].0 == field.0 {
      assert out[1..] == groups[1..];
      forall g | g in out
        ensures g.0 == field.0 || exists h | h in groups :: h.0 == g.0
      {
        assert g == out[0] || g in groups[1..];
      }
    } else {
      AddToValues(groups[1..], field, name);
      assert out[1..] == AddTo(groups[1..], field);
      forall g | g in out
        ensures g.0 == field.0 || exists h | h in groups :: h.0 == g.0
      {
        if g != groups[0] {
          assert g in out[1..];
        }
      }
      if DistinctNames(groups) {
        DistinctTail(groups);
        NamesOfAdded(groups, field, out);
      }
    }
  }

  lemma DistinctTail(groups: seq<Group>)
    requires groups != [] && DistinctNames(groups)
    ensures DistinctNames(groups[1..])
    ensures forall h | h in groups[1..] :: h.0 != groups[0].0
  {}

  lemma NamesOfAdded(groups: seq<Group>, field: (string, string), out: seq<Group>)
    requires groups != [] && groups[0].0 != field.0 && out == [groups[0]] + AddTo(groups[1..], field)
    requires DistinctNames(AddTo(groups[1..], field))
    requires forall h | h in groups[1..] :: h.0 != groups[0].0
    requires forall g | g in AddTo(groups[1..], field) :: g.0 == field.0 || exists h | h in groups[1..] :: h.0 == g.0
    ensures DistinctNames(out)
  {
    hide AddTo;
    var tail := AddTo(groups[1..], field);
    forall k | 0 <= k < |tail|
      ensures tail[k].0 != groups[0].0
    {
      assert tail[k] in tail;
    }
    DistinctCons(groups[0], tail);
  }

  lemma DistinctCons(g: Group, tail: seq<Group>)
    requires DistinctNames(tail) && forall k | 0 <= k < |tail| :: tail[k].0 != g.0
    ensures DistinctNames([g] + tail)
  {
    var out := [g] + tail;
    forall i, j | 0 <= i < j < |out|
      ensures out[i].0 != out[j].0
    {
      assert out[j] == tail[j - 1];
      if i > 0 {
        assert out[i] == tail[i - 1];
      }
    }
  }

  lemma {:induction false} GroupedValues(fields: Fields, name: string)
    ensures GroupValues(Grouped(fields), name) == ExactValues(fields, name)
    ensures DistinctNames(Grouped(fields))
    ensures forall g | g in Grouped(fields) :: exists f | f in fields :: f.0 == g.0
    decreases |fields|
  {
    hide AddTo, GroupValues;
    if fields == [] {
      assert GroupValues([], name) == [] by { NoGroups(name); }
    } else {
      var n := |fields| - 1;
      var before := Grouped(fields[..n]);
      GroupedValues(fields[..n], name);
      AddToValues(before, fields[n], name);
      forall g | g in Grouped(fields)
        ensures exists f | f in fields :: f.0 == g.0
      {
        if g.0 == fields[n].0 {
          assert fields[n] in fields;
        } else {
          var h :| h in before && h.0 == g.0;
          var f :| f in fields[..n] && f.0 == h.0;
          assert f in fields;
        }
      }
    }
  }

  lemma NoGroups(name: string)
    ensures GroupValues([], name) == []
  {}

  /** The spelling of a key whose group goes out: that of the last group of the key. */
  function Winner(groups: seq<Group>, key: string): Option<string> {
    if groups == [] then None
    else match Winner(groups[1..], key)
      case Some(n) => Some(n)
      case None => if Lower(groups[0].0) == key then Some(groups[0].0) else None
  }

  lemma {:induction false} WinnerIsGroup(groups: seq<Group>, key: string)
    ensures Winner(groups, key).Some? ==> exists g | g in groups :: g.0 == Winner(groups, key).value
    decreases |groups|
  {
    hide Lower;
    if groups != [] {
      WinnerIsGroup(groups[1..], key);
      assert groups[0] in groups;
      if Winner(groups[1..], key).Some? {
        var g :| g in groups[1..] && g.0 == Winner(groups[1..], key).value;
        assert g in groups;
      }
    }
  }

  lemma {:induction false} SetAllWinner(out: Outgoing, groups: seq<Group>, key: string)
    requires DistinctNames(groups)
    ensures ValuesOut(SetAll(out, groups), key)
            == match Winner(groups, key) case Some(n) => GroupValues(groups, n) case None => ValuesOut(out, key)
    decreases |groups|
  {
    hide Lower;
    if groups != [] {
      DistinctTail(groups);
      SetAllWinner(out[Lower(groups[0].0) := groups[0].1], groups[1..], key);
      WinnerIsGroup(groups[1..], key);
    }
  }

  ghost predicate HasGroup(groups: seq<Group>, name: string) {
    exists i | 0 <= i < |groups| :: groups[i].0 == name
  }

  lemma {:induction false} WinnerAdd(groups: seq<Group>, field: (string, string), key: string)
    ensures Winner(AddTo(groups, field), key)
            == if HasGroup(groups, field.0) || Lower(field.0) != key then Winner(groups, key) else Some(field.0)
    decreases |groups|
  {
    hide Lower;
    var out := AddTo(groups, field);
    if groups == [] {
      assert out[1..] == [];
    } else if groups[0].0 == field.0 {
      assert out[1..] == groups[1..];
    } else {
      WinnerAdd(groups[1..], field, key);
      assert out[1..] == AddTo(groups[1..], field);
      if HasGroup(groups, field.0) {
        var i :| 0 <= i < |groups| && groups[i].0 == field.0;
        assert groups[1..][i - 1].0 == field.0;
      }
      if HasGroup(groups[1..], field.0) {
        var i :| 0 <= i < |groups[1..]| && groups[1..][i].0 == field.0;
        assert groups[i + 1].0 == field.0;
      }
    }
  }

  ghost predicate HasExact(fields: Fields, name: string) {
    exists i | 0 <= i < |fields| :: fields[i].0 == name
  }

  /** The spelling of the name that first appears last. */
  ghost function NewestSpelling(fields: Fields, name: string): Option<string> {
    if fields == [] then None
    else
      var n := |fields| - 1;
      if Named(fields[n], name) && !HasExact(fields[..n], fields[n].0) then Some(fields[n].0)
      else NewestSpelling(fields[..n], name)
  }

  lemma {:induction false} ExactPresent(fields: Fields, name: string)
    ensures HasExact(fields, name) <==> ExactValues(fields, name) != []
    decreases |fields|
  {
    if fields != [] {
      var n := |fields| - 1;
      ExactPresent(fields[..n], name);
      if HasExact(fields[..n], name) {
        var i :| 0 <= i < n && fields[..n][i].0 == name;
        assert fields[i].0 == name;
      }
      if HasExact(fields, name) && fields[n].0 != name {
        var i :| 0 <= i < |fields| && fields[i].0 == name;
        assert fields[..n][i].0 == name;
      }
    }
  }

  lemma {:induction false} GroupPresent(groups: seq<Group>, name: string)
    requires forall i | 0 <= i < |groups| :: groups[i].1 != []
    ensures HasGroup(groups, name) <==> GroupValues(groups, name) != []
    decreases |groups|
  {
    if groups != [] {
      GroupPresent(groups[1..], name);
      if HasGroup(groups[1..], name) {
        var i :| 0 <= i < |groups[1..]| && groups[1..][i].0 == name;
        assert groups[i + 1].0 == name;
      }
      if HasGroup(groups, name) && groups[0].0 != name {
        var i :| 0 <= i < |groups| && groups[i].0 == name;
        assert groups[1..][i - 1].0 == name;
      }
    }
  }

  lemma {:induction false} GroupsFilled(groups: seq<Group>, field: (string, string))
    requires forall i | 0 <= i < |groups| :: groups[i].1 != []
    ensures forall i | 0 <= i < |AddTo(groups, field)| :: AddTo(groups, field)[i].1 != []
    decreases |groups|
  {
    if groups != [] {
      GroupsFilled(groups[1..], field);
    }
  }

  lemma {:induction false} WinnerOfGrouped(fields: Fields, name: string)
    ensures Winner(Grouped(fields), Lower(name)) == NewestSpelling(fields, name)
    ensures forall i | 0 <= i < |Grouped(fields)| :: Grouped(fields)[i].1 != []
    decreases |fields|
  {
    hide AddTo, Lower, GroupValues, ExactValues, HasExact, HasGroup;
    if fields != [] {
      var n := |fields| - 1;
      var before := Grouped(fields[..n]);
      WinnerOfGrouped(fields[..n], name);
      GroupsFilled(before, fields[n]);
      WinnerAdd(before, fields[n], Lower(name));
      GroupedValues(fields[..n], fields[n].0);
      GroupPresent(before, fields[n].0);
      ExactPresent(fields[..n], fields[n].0);
    }
  }

  /** What goes out under a name. */
  ghost function NewestValues(fields: Fields, name: string): seq<string> {
    match NewestSpelling(fields, name) case Some(s) => ExactValues(fields, s) case None => []
  }

  /** For every header list: under each name goes out the group of the spelling that first appears last. */
  lemma OutgoingValues(fields: Fields, name: string)
    ensures ValuesOut(SetAll(map[], Grouped(fields)), Lower(name)) == NewestValues(fields, name)
  {
    hide Grouped, SetAll, GroupValues, ExactValues, NewestSpelling, Lower, Winner;
    var groups := Grouped(fields);
    WinnerOfGrouped(fields, name);
    GroupedValues(fields, name);
    SetAllWinner(map[], groups, Lower(name));
    if NewestSpelling(fields, name).Some? {
      GroupedValues(fields, NewestSpelling(fields, name).value);
    }
  }

  /** All fields of a name are written alike. */
  ghost predicate OneSpelling(fields: Fields, name: string) {
    forall i, j | 0 <= i < |fields| && 0 <= j < |fields| :: Named(fields[i], name) && Named(fields[j], name) ==>
      fields[i].0 == fields[j].0
  }

  lemma {:induction false} NewestIsSpelling(fields: Fields, name: string)
    ensures NewestSpelling(fields, name).None? <==> forall i | 0 <= i < |fields| :: !Named(fields[i], name)
    ensures NewestSpelling(fields, name).Some? ==>
              exists i | 0 <= i < |fields| ::
                Named(fields[i], name) && fields[i].0 == NewestSpelling(fields, name).value
    decreases |fields|
  {
    hide Named;
    if fields != [] {
      var n := |fields| - 1;
      var b := fields[..n];
      NewestIsSpelling(b, name);
      if NewestSpelling(b, name).Some? {
        var i :| 0 <= i < n && Named(b[i], name) && b[i].0 == NewestSpelling(b, name).value;
        assert Named(fields[i], name);
      } else if Named(fields[n], name) && HasExact(b, fields[n].0) {
        var i :| 0 <= i < n && b[i].0 == fields[n].0;
        SameName(b[i], fields[n], name);
      }
    }
  }

  lemma SameName(f: (string, string), g: (string, string), name: string)
    requires f.0 == g.0
    ensures Named(f, name) <==> Named(g, name)
  {}

  /** The fields of one spelling are some of the fields of the name, and all of them exactly when no other
      spelling occurs. */
  lemma {:induction false} ExactSome(fields: Fields, name: string, spelling: string)
    requires Lower(spelling) == Lower(name)
    ensures |ExactValues(fields, spelling)| <= |ValuesOf(fields, name)|
    ensures ExactValues(fields, spelling) == ValuesOf(fields, name)
            <==> forall i | 0 <= i < |fields| :: Named(fields[i], name) ==> fields[i].0 == spelling
    decreases |fields|
  {
    hide Lower;
    if fields != [] {
      var n := |fields| - 1;
      var b := fields[..n];
      ExactSome(b, name, spelling);
      ValuesSnoc(b, fields[n], name);
      assert fields == b + [fields[n]];
      var e := ExactValues(b, spelling);
      var v := ValuesOf(b, name);
      if fields[n].0 == spelling {
        SnocEqual(e, v, fields[n].1);
        assert forall i | 0 <= i < n :: fields[i] == b[i];
      } else {
        assert ExactValues(fields, spelling) == e;
        if Named(fields[n], name) {
          assert |ValuesOf(fields, name)| == |v| + 1;
        } else {
          assert ValuesOf(fields, name) == v;
          assert forall i | 0 <= i < n :: fields[i] == b[i];
        }
      }
    }
  }

  lemma SnocEqual<T>(a: seq<T>, b: seq<T>, x: T)
    ensures a + [x] == b + [x] <==> a == b
  {
    if a + [x] == b + [x] {
      assert |a + [x]| == |b + [x]|;
      assert a == (a + [x])[..|a|] && b == (b + [x])[..|b|];
    }
  }

  lemma {:induction false} ValuesSnoc(fields: Fields, f: (string, string), name: string)
    ensures ValuesOf(fields + [f], name) == ValuesOf(fields, name) + if Named(f, name) then [f.1] else []
    decreases |fields|
  {
    hide Named;
    if fields == [] {
      assert [] + [f] == [f] && [f][1..] == [];
    } else {
      assert (fields + [f])[1..] == fields[1..] + [f];
      ValuesSnoc(fields[1..], f, name);
    }
  }

  /** All values of a name go out, in order, exactly when its fields are written alike. */
  lemma AllValuesGoOut(fields: Fields, name: string)
    ensures NewestValues(fields, name) == ValuesOf(fields, name) <==> OneSpelling(fields, name)
  {
    hide NewestSpelling, ExactValues, ValuesOf, Lower;
    NewestIsSpelling(fields, name);
    match NewestSpelling(fields, name)
    case Some(s) =>
      var k :| 0 <= k < |fields| && Named(fields[k], name) && fields[k].0 == s;
      ExactSome(fields, name, s);
    case None =>
      NoValues(fields, name);
  }

  lemma {:induction false} NoValues(fields: Fields, name: string)
    requires forall i | 0 <= i < |fields| :: !Named(fields[i], name)
    ensures ValuesOf(fields, name) == []
    decreases |fields|
  {
    hide Named;
    if fields != [] {
      assert forall i | 0 <= i < |fields[1..]| :: fields[1..][i] == fields[i + 1];
      NoValues(fields[1..], name);
    }
  }

  // ---- writing a response ----

  datatype Sent = Sent(headers: Outgoing, body: seq<byte>)

  /** Fields whose lower-cased name is not in the set. */
  function WithoutNames(fields: Fields, names: set<string>): Fields {
    if fields == [] then []
    else (if Lower(fields[0].0) in names then [] else [fields[0]]) + WithoutNames(fields[1..], names)
  }

  const FRAMING: set<string> := {"transfer-encoding", "connection", "content-length"}

  const FORBIDDEN_H2: set<string> :=
    {"connection", "transfer-encoding", "keep-alive", "upgrade", "proxy-connection", "host", "content-length"}

  /** writeResponse: framing headers are left to Node, and the length is that of the payload. */
  function WriteResponse(fields: Fields, payload: seq<byte>): Sent {
    Sent(SetAll(map[], Grouped(WithoutNames(fields, FRAMING)))[CL := [Decimal(|payload|)]], payload)
  }

  function Lowered(fields: Fields): Fields {
    if fields == [] then [] else [(Lower(fields[0].0), fields[0].1)] + Lowered(fields[1..])
  }

  /** respond: names in lower case, connection headers dropped, the encoding dropped on request. */
  function Respond(fields: Fields, payload: seq<byte>, stripEncoding: bool): Sent {
    var names := if stripEncoding then FORBIDDEN_H2 + {CE} else FORBIDDEN_H2;
    Sent(SetAll(map[], Grouped(Lowered(WithoutNames(fields, names))))[CL := [Decimal(|payload|)]], payload)
  }

  /** The end of the buffered path: a changed body goes out decoded and without its encoding header, an
      unchanged one as the bytes that came in. */
  function Relayed(fields: Fields, body: Option<seq<byte>>, raw: seq<byte>, decoded: seq<byte>): Sent {
    if body.Some? && body.value != decoded then WriteResponse(HDelete(fields, CE), body.value)
    else WriteResponse(fields, raw)
  }

  function RelayedH2(fields: Fields, body: Option<seq<byte>>, raw: seq<byte>, decoded: seq<byte>): Sent {
    var modified := body.Some? && body.value != decoded;
    Respond(fields, if modified then body.value else raw, modified)
  }

  function EncodingOf(fields: Fields): string {
    match HGet(fields, CE) case Some(e) => e case None => ""
  }

  /** What a client takes the encoding of the response to be. */
  function SentEncoding(s: Sent): string {
    Join(ValuesOut(s.headers, CE), ", ")
  }

  /** The body as recorded: decoded when the encoding is one that can be decoded. */
  function Decoded(codec: Codec, raw: seq<byte>, encoding: string): seq<byte> {
    if IsDecodable(encoding) then DecodeBody(codec, raw, encoding) else raw
  }

  lemma DecodedIsDecode(codec: Codec, raw: seq<byte>, encoding: string)
    ensures Decoded(codec, raw, encoding) == DecodeBody(codec, raw, encoding)
  {
    hide DecodeBody, IsDecodable;
    if !IsDecodable(encoding) {
      NotDecodable(codec, raw, encoding);
    }
  }

  lemma {:induction false} WithoutKeeps(fields: Fields, names: set<string>, name: string)
    ensures ValuesOf(WithoutNames(fields, names), name) == if Lower(name) in names then [] else ValuesOf(fields, name)
    ensures forall f | f in WithoutNames(fields, names) :: f in fields && Lower(f.0) !in names
    decreases |fields|
  {
    hide Lower;
    if fields != [] {
      WithoutKeeps(fields[1..], names, name);
      var w := WithoutNames(fields[1..], names);
      if Lower(fields[0].0) in names {
        assert [] + w == w;
      } else {
        assert ([fields[0]] + w)[1..] == w;
      }
    }
  }

  lemma LowerNames()
    ensures Lower(CE) == CE && Lower(CL) == CL && CE != CL && CE !in FRAMING && CE !in FORBIDDEN_H2
  {
    assert Lower(CE) == CE;
    assert Lower(CL) == CL;
    assert CE[8] == 'e' && CL[8] == 'l';
    NotFraming();
  }

  lemma NotFraming()
    ensures CE !in FRAMING && CE !in FORBIDDEN_H2
  {
    assert |CE| == 16;
    assert |"transfer-encoding"| == 17 && |"connection"| == 10 && |"content-length"| == 14;
    assert |"keep-alive"| == 10 && |"upgrade"| == 7 && |"proxy-connection"| == 16 && |"host"| == 4;
    assert CE[0] == 'c' && "proxy-connection"[0] == 'p';
  }

  lemma {:induction false} WithoutSnoc(fields: Fields, names: set<string>, f: (string, string))
    ensures WithoutNames(fields + [f], names) == WithoutNames(fields, names) + if Lower(f.0) in names then [] else [f]
    decreases |fields|
  {
    hide Lower;
    var own := if Lower(f.0) in names then [] else [f];
    if fields == [] {
      assert [] + [f] == [f] && [f][1..] == [] && own + [] == own && [] + own == own;
    } else {
      WithoutSnoc(fields[1..], names, f);
      var all := fields + [f];
      assert all[0] == fields[0] && all[1..] == fields[1..] + [f];
      var first := if Lower(fields[0].0) in names then [] else [fields[0]];
      var rest := WithoutNames(fields[1..], names);
      assert first + (rest + own) == (first + rest) + own;
    }
  }

  lemma {:induction false} ExactKept(fields: Fields, names: set<string>, spelling: string)
    requires Lower(spelling) !in names
    ensures ExactValues(WithoutNames(fields, names), spelling) == ExactValues(fields, spelling)
    decreases |fields|
  {
    hide Lower;
    if fields != [] {
      var n := |fields| - 1;
      ExactKept(fields[..n], names, spelling);
      WithoutSnoc(fields[..n], names, fields[n]);
      assert fields == fields[..n] + [fields[n]];
      var w := WithoutNames(fields[..n], names);
      if Lower(fields[n].0) !in names {
        assert (w + [fields[n]])[..|w|] == w;
      } else {
        assert w + [] == w;
      }
    }
  }

  lemma {:induction false} NewestKept(fields: Fields, names: set<string>, name: string)
    requires Lower(name) !in names
    ensures NewestSpelling(WithoutNames(fields, names), name) == NewestSpelling(fields, name)
    decreases |fields|
  {
    hide Lower, HasExact;
    if fields != [] {
      var n := |fields| - 1;
      NewestKept(fields[..n], names, name);
      WithoutSnoc(fields[..n], names, fields[n]);
      assert fields == fields[..n] + [fields[n]];
      var w := WithoutNames(fields[..n], names);
      if Lower(fields[n].0) in names {
        assert w + [] == w;
      } else {
        assert (w + [fields[n]])[..|w|] == w;
        ExactKept(fields[..n], names, fields[n].0);
        ExactPresent(w, fields[n].0);
        ExactPresent(fields[..n], fields[n].0);
      }
    }
  }

  /** The values that go out under the encoding header. */
  lemma WrittenEncoding(fields: Fields, payload: seq<byte>)
    ensures ValuesOut(WriteResponse(fields, payload).headers, CE) == NewestValues(fields, CE)
  {
    hide Lower, Grouped, SetAll, ValuesOf, Decimal, WithoutNames, NewestSpelling, ExactValues;
    LowerNames();
    var kept := WithoutNames(fields, FRAMING);
    OutgoingValues(kept, CE);
    NewestKept(fields, FRAMING, CE);
    NewestIsSpelling(fields, CE);
    if NewestSpelling(fields, CE).Some? {
      ExactKept(fields, FRAMING, NewestSpelling(fields, CE).value);
    }
  }

  lemma RecordedEncoding(fields: Fields)
    ensures EncodingOf(fields) == Join(ValuesOf(fields, CE), ", ")
  {
    hide ValuesOf;
    EmptyJoin();
  }

  lemma EmptyJoin()
    ensures Join([], ", ") == ""
  {}

  /** The decompressor an encoding selects. */
  datatype Kind = Plain | Gzip | Deflate | Brotli

  function KindOf(encoding: string): Kind {
    var e := Token(encoding);
    if e == "gzip" || e == "x-gzip" then Gzip
    else if e == "deflate" then Deflate
    else if e == "br" then Brotli
    else Plain
  }

  /** An encoding matters through the decompressor it selects and in no other way. */
  lemma KindDecides(a: string, b: string)
    ensures KindOf(a) == KindOf(b) <==>
              forall codec: Codec, raw: seq<byte> :: DecodeBody(codec, raw, a) == DecodeBody(codec, raw, b)
  {
    hide Token;
    if forall codec: Codec, raw: seq<byte> :: DecodeBody(codec, raw, a) == DecodeBody(codec, raw, b) {
      var c := Codec(x => Some([1]), x => Some([2]), x => None, x => Some([3]));
      assert DecodeBody(c, [], a) == DecodeBody(c, [], b);
      Probe(c, a);
      Probe(c, b);
    }
  }

  lemma Probe(c: Codec, e: string)
    requires c.gunzip([]) == Some([1]) && c.inflate([]) == Some([2]) && c.brotli([]) == Some([3])
    ensures DecodeBody(c, [], e)
            == match KindOf(e) case Plain => [] case Gzip => [1] case Deflate => [2] case Brotli => [3]
  {
    hide Token;
  }

  /** What the client decodes is what the flow records, on HTTP/1: for every upstream body and header list,
      whatever rules, hooks and breakpoint edits did to the body, as long as they left the encoding alone and
      the body in place. A changed body is always read as recorded. */
  lemma ClientSeesRecorded(codec: Codec, before: Fields, fields: Fields, body: seq<byte>, raw: seq<byte>)
    requires EncodingOf(fields) == EncodingOf(before)
    ensures var decoded := Decoded(codec, raw, EncodingOf(before));
            var sent := Relayed(fields, Some(body), raw, decoded);
            ValuesOut(sent.headers, CL) == [Decimal(|sent.body|)] && (body == decoded ==> sent.body == raw) &&
            (body != decoded || OneSpelling(fields, CE) ==> DecodeBody(codec, sent.body, SentEncoding(sent)) == body)
  {
    hide DecodeBody, WriteResponse, Lower, OneSpelling, EncodingOf, Decimal, ValuesOf, NewestValues;
    var decoded := Decoded(codec, raw, EncodingOf(before));
    LengthWritten(fields, raw);
    if body == decoded {
      WrittenEncoding(fields, raw);
      RecordedEncoding(fields);
      AllValuesGoOut(fields, CE);
      DecodedIsDecode(codec, raw, EncodingOf(before));
    } else {
      LengthWritten(HDelete(fields, CE), body);
      StrippedEncoding(fields, body);
      PlainBody(codec, body);
    }
  }

  /** An untouched body is read as recorded, whatever its bytes and whatever the decompressors do, exactly
      when the spelling of the encoding header that first appears last selects the same decompressor as all
      its fields joined. */
  lemma UntouchedIffSameKind(fields: Fields)
    ensures (forall codec: Codec, raw: seq<byte> ::
               DecodeBody(codec, raw, SentEncoding(WriteResponse(fields, raw)))
               == Decoded(codec, raw, EncodingOf(fields)))
            <==> KindOf(Join(NewestValues(fields, CE), ", ")) == KindOf(EncodingOf(fields))
  {
    hide DecodeBody, WriteResponse, Decoded, NewestValues, KindOf, EncodingOf, Join;
    var written := Join(NewestValues(fields, CE), ", ");
    forall codec: Codec, raw: seq<byte>
      ensures Decoded(codec, raw, EncodingOf(fields)) == DecodeBody(codec, raw, EncodingOf(fields))
      ensures SentEncoding(WriteResponse(fields, raw)) == written
    {
      DecodedIsDecode(codec, raw, EncodingOf(fields));
      WrittenEncoding(fields, raw);
    }
    KindDecides(written, EncodingOf(fields));
  }

  lemma LengthWritten(fields: Fields, payload: seq<byte>)
    ensures ValuesOut(WriteResponse(fields, payload).headers, CL) == [Decimal(|payload|)]
    ensures WriteResponse(fields, payload).body == payload
  {
    hide SetAll, Grouped, WithoutNames, Decimal;
  }

  /** The declared length reads as the number of bytes that follow. */
  lemma DeclaredLength(sent: Sent)
    requires ValuesOut(sent.headers, CL) == [Decimal(|sent.body|)]
    ensures ReadBase(ValuesOut(sent.headers, CL)[0], 10) == |sent.body|
  {
    InBaseReads(|sent.body|, 10);
  }

  lemma {:induction false} DeletedAbsent(fields: Fields, name: string)
    ensures forall f | f in HDelete(fields, name) :: !Named(f, name)
    decreases |fields|
  {
    hide Named;
    if fields != [] {
      DeletedAbsent(fields[1..], name);
    }
  }

  lemma StrippedEncoding(fields: Fields, payload: seq<byte>)
    ensures SentEncoding(WriteResponse(HDelete(fields, CE), payload)) == ""
  {
    hide WriteResponse, Lower, HDelete, NewestSpelling, Named;
    var left := HDelete(fields, CE);
    DeletedAbsent(fields, CE);
    WrittenEncoding(left, payload);
    assert forall i | 0 <= i < |left| :: left[i] in left;
    NewestIsSpelling(left, CE);
    EmptyJoin();
  }

  lemma PlainBody(codec: Codec, body: seq<byte>)
    ensures DecodeBody(codec, body, "") == body
  {
    assert Token("") == "";
  }

  /** With two spellings of the header Node keeps only one of them, and the client may decode a body that
      was relayed because it could not be decoded. */
  lemma TwoSpellingsDiverge(codec: Codec, raw: seq<byte>)
    requires codec.brotli(raw).Some? && codec.brotli(raw).value != raw
    ensures var fields := [("Content-Encoding", "gzip"), (CE, "br")];
            var decoded := Decoded(codec, raw, EncodingOf(fields));
            var sent := Relayed(fields, Some(decoded), raw, decoded);
            decoded == raw && DecodeBody(codec, sent.body, SentEncoding(sent)) != decoded
  {
    hide Lower, Trim, DecodeBody, Decimal;
    var fields := [("Content-Encoding", "gzip"), (CE, "br")];
    Spellings();
    assert EncodingOf(fields) == "gzip, br" by {
      JoinTwo();
      assert fields[1..] == [(CE, "br")] && fields[1..][1..] == [];
      assert ValuesOf(fields[1..], CE) == ["br"];
      assert ValuesOf(fields, CE) == ["gzip", "br"];
    }
    NotOneToken();
    assert WithoutNames(fields, FRAMING) == fields by {
      assert fields[1..] == [(CE, "br")] && fields[1..][1..] == [];
      assert WithoutNames(fields[1..], FRAMING) == fields[1..];
    }
    TwoGroups("Content-Encoding", CE, "gzip", "br");
    var sent := WriteResponse(fields, raw);
    JoinOne();
    BrotliDecodes(codec, raw);
  }

  /** Two spellings of one name make two groups, of which the second goes out. */
  lemma TwoGroups(a: string, b: string, x: string, y: string)
    requires a != b && Lower(a) == Lower(b)
    ensures var out := SetAll(map[], Grouped([(a, x), (b, y)])); Lower(b) in out && out[Lower(b)] == [y]
  {
    hide Lower;
    var fields := [(a, x), (b, y)];
    assert fields[..1] == [(a, x)] && fields[..1][..0] == [];
    assert Grouped([]) == [];
    assert Grouped(fields[..1]) == [(a, [x])];
    var one := [(a, [x])];
    assert one[1..] == [] && AddTo([], (b, y)) == [(b, [y])];
    assert AddTo(one, (b, y)) == [(a, [x]), (b, [y])];
    assert Grouped(fields) == [(a, [x]), (b, [y])];
    var groups := Grouped(fields);
    assert groups[1..] == [(b, [y])] && groups[1..][1..] == [];
    var out: Outgoing := map[][Lower(a) := [x]];
    assert SetAll(map[], groups) == SetAll(out, groups[1..]);
  }

  lemma Spellings()
    ensures Lower("Content-Encoding") == CE && Lower(CE) == CE && CE !in FRAMING && CE != CL && "Content-Encoding" != CE
  {
    LowerNames();
    assert Lower("Content-Encoding") == CE;
    assert "Content-Encoding"[0] == 'C';
  }

  lemma JoinTwo()
    ensures Join(["gzip", "br"], ", ") == "gzip, br"
  {
    assert ["gzip", "br"][1..] == ["br"];
  }

  lemma JoinOne()
    ensures Join(["br"], ", ") == "br"
  {}

  lemma NotOneToken()
    ensures !IsDecodable("gzip, br")
  {
    var s := "gzip, br";
    assert !IsSpace(s[0]) && !IsSpace(s[7]);
    assert TrimLeft(s) == s && TrimRight(s) == s;
    assert |Token(s)| == 8;
  }

  lemma BrotliDecodes(codec: Codec, raw: seq<byte>)
    ensures DecodeBody(codec, raw, "br") == OrElse(codec.brotli(raw), raw)
  {
    assert TrimLeft("br") == "br" && TrimRight("br") == "br";
    assert Lower("br") == "br";
  }

  // ---- HTTP/2 ----

  lemma LowerTwice(s: string)
    ensures Lower(Lower(s)) == Lower(s)
  {
    forall i | 0 <= i < |s|
      ensures Lower(Lower(s))[i] == Lower(s)[i]
    {
      assert LowerChar(LowerChar(s[i])) == LowerChar(s[i]);
    }
  }

  lemma {:induction false} LoweredValues(fields: Fields, name: string)
    ensures ValuesOf(Lowered(fields), name) == ValuesOf(fields, name)
    ensures forall f | f in Lowered(fields) :: exists g | g in fields :: f.0 == Lower(g.0)
    decreases |fields|
  {
    hide Lower;
    if fields != [] {
      LoweredValues(fields[1..], name);
      LowerTwice(fields[0].0);
      var l := Lowered(fields);
      assert l[1..] == Lowered(fields[1..]);
      forall f | f in l
        ensures exists g | g in fields :: f.0 == Lower(g.0)
      {
        if f == l[0] {
          assert fields[0] in fields;
        } else {
          assert f in l[1..];
          var g :| g in fields[1..] && f.0 == Lower(g.0);
          assert g in fields;
        }
      }
    }
  }

  /** The encoding that goes out on HTTP/2; spelling plays no part there. */
  lemma RespondedEncoding(fields: Fields, payload: seq<byte>, strip: bool)
    ensures SentEncoding(Respond(fields, payload, strip)) == if strip then "" else EncodingOf(fields)
  {
    hide Lower, Grouped, SetAll, ValuesOf, Decimal, WithoutNames, Lowered, NewestValues;
    LowerNames();
    var names := if strip then FORBIDDEN_H2 + {CE} else FORBIDDEN_H2;
    var kept := WithoutNames(fields, names);
    WithoutKeeps(fields, names, CE);
    LoweredValues(kept, CE);
    var low := Lowered(kept);
    forall i, j | 0 <= i < |low| && 0 <= j < |low| && Named(low[i], CE) && Named(low[j], CE)
      ensures low[i].0 == low[j].0
    {
      assert low[i] in low && low[j] in low;
      var g :| g in kept && low[i].0 == Lower(g.0);
      var h :| h in kept && low[j].0 == Lower(h.0);
      LowerTwice(g.0);
      LowerTwice(h.0);
    }
    OutgoingValues(low, CE);
    AllValuesGoOut(low, CE);
    EmptyJoin();
  }

  /** The same claim on HTTP/2, without the condition on spelling; and nothing but the listed names is
      withheld, which never go out. */
  lemma ClientSeesRecordedH2(codec: Codec, before: Fields, fields: Fields, body: seq<byte>, raw: seq<byte>)
    requires EncodingOf(fields) == EncodingOf(before)
    ensures var decoded := Decoded(codec, raw, EncodingOf(before));
            var sent := RelayedH2(fields, Some(body), raw, decoded);
            DecodeBody(codec, sent.body, SentEncoding(sent)) == body &&
            ValuesOut(sent.headers, CL) == [Decimal(|sent.body|)] &&
            (body == decoded ==> sent.body == raw)
  {
    hide DecodeBody, Lower, SentEncoding, EncodingOf, Decimal, SetAll, Grouped, Lowered, WithoutNames;
    var decoded := Decoded(codec, raw, EncodingOf(before));
    var modified := body != decoded;
    RespondedEncoding(fields, if modified then body else raw, modified);
    if modified {
      PlainBody(codec, body);
    } else {
      DecodedIsDecode(codec, raw, EncodingOf(before));
    }
  }

  lemma {:induction false} SetAllKeys(out: Outgoing, groups: seq<Group>)
    ensures forall k | k in SetAll(out, groups) :: k in out || exists g | g in groups :: Lower(g.0) == k
    decreases |groups|
  {
    hide Lower;
    if groups != [] {
      var next := out[Lower(groups[0].0) := groups[0].1];
      SetAllKeys(next, groups[1..]);
      forall k | k in SetAll(out, groups)
        ensures k in out || exists g | g in groups :: Lower(g.0) == k
      {
        if k in next {
          assert groups[0] in groups;
        } else {
          var g :| g in groups[1..] && Lower(g.0) == k;
          assert g in groups;
        }
      }
    }
  }

  /** What goes out on HTTP/2 under each name, in any spelling: all its values in order, but nothing under the six
      connection-specific names, the length of the payload, and no encoding when that is stripped. */
  lemma HeadersOutH2(fields: Fields, payload: seq<byte>, strip: bool, name: string)
    ensures ValuesOut(Respond(fields, payload, strip).headers, Lower(name))
            == if Lower(name) == "content-length" then [Decimal(|payload|)]
               else if Lower(name) in ["connection", "transfer-encoding", "keep-alive", "upgrade", "proxy-connection",
                                       "host"]
               then []
               else if strip && Lower(name) == "content-encoding" then []
               else ValuesOf(fields, name)
  {
    hide Lower, Grouped, SetAll, ValuesOf, Decimal, WithoutNames, Lowered, NewestValues;
    var names := if strip then FORBIDDEN_H2 + {CE} else FORBIDDEN_H2;
    var kept := WithoutNames(fields, names);
    WithoutKeeps(fields, names, name);
    LoweredValues(kept, name);
    var low := Lowered(kept);
    forall i, j | 0 <= i < |low| && 0 <= j < |low| && Named(low[i], name) && Named(low[j], name)
      ensures low[i].0 == low[j].0
    {
      assert low[i] in low && low[j] in low;
      var g :| g in kept && low[i].0 == Lower(g.0);
      var h :| h in kept && low[j].0 == Lower(h.0);
      LowerTwice(g.0);
      LowerTwice(h.0);
    }
    OutgoingValues(low, name);
    AllValuesGoOut(low, name);
  }

  /** No connection-specific header is ever emitted on HTTP/2. */
  lemma NoForbiddenH2(fields: Fields, payload: seq<byte>, strip: bool)
    ensures forall k | k in Respond(fields, payload, strip).headers ::
              k != "connection" && k != "transfer-encoding" && k != "keep-alive" && k != "upgrade" &&
              k != "proxy-connection" && k != "host"
  {
    hide Lower, Grouped, SetAll, Decimal, WithoutNames, Lowered, ValuesOf, GroupValues, ExactValues;
    var names := if strip then FORBIDDEN_H2 + {CE} else FORBIDDEN_H2;
    var kept := WithoutNames(fields, names);
    WithoutKeeps(fields, names, CE);
    LoweredValues(kept, CE);
    var low := Lowered(kept);
    var groups := Grouped(low);
    GroupedValues(low, CE);
    SetAllKeys(map[], groups);
    forall k | k in Respond(fields, payload, strip).headers
      ensures k == CL || k !in FORBIDDEN_H2
    {
      if k != CL {
        var g :| g in groups && Lower(g.0) == k;
        var f :| f in low && f.0 == g.0;
        var h :| h in kept && f.0 == Lower(h.0);
        LowerTwice(h.0);
      }
    }
  }
}
