/** The cache of src/util/lru.ts, built on a Map that remembers insertion order, and what it holds after
    any sequence of requests. */
module Lru {
  import opened Prelude

  /** The entries of a JavaScript Map in insertion order, oldest first. */
  type Entries<K, V> = seq<(K, V)>

  function Keys<K, V>(m: Entries<K, V>): (r: seq<K>)
    ensures |r| == |m|
  {
    seq(|m|, i requires 0 <= i < |m| => m[i].0)
  }

  predicate Distinct<K(==)>(ks: seq<K>) {
    forall i, j | 0 <= i < j < |ks| :: ks[i] != ks[j]
  }

  /** Where a key stands. */
  function Find<K(==), V>(m: Entries<K, V>, key: K): (r: Option<nat>)
    ensures r.Some? ==> r.value < |m| && m[r.value].0 == key
    ensures r.None? ==> key !in Keys(m)
  {
    if m == [] then None
    else if m[0].0 == key then Some(0)
    else match Find(m[1..], key)
      case None => assert Keys(m) == [m[0].0] + Keys(m[1..]); None
      case Some(i) => Some(i + 1)
  }

  function MapGet<K(==), V>(m: Entries<K, V>, key: K): Option<V> {
    match Find(m, key) case None => None case Some(i) => Some(m[i].1)
  }

  function MapDelete<K(==), V>(m: Entries<K, V>, key: K): Entries<K, V> {
    match Find(m, key) case None => m case Some(i) => m[..i] + m[i + 1..]
  }

  /** Setting a key that is present keeps its place; a new one goes last. */
  function MapSet<K(==), V>(m: Entries<K, V>, key: K, value: V): Entries<K, V> {
    match Find(m, key) case None => m + [(key, value)] case Some(i) => m[i := (key, value)]
  }

  // ---- the two operations, as functions of the entries ----

  function Touched<K(==), V>(m: Entries<K, V>, key: K): Entries<K, V> {
    match MapGet(m, key) case None => m case Some(v) => MapDelete(m, key) + [(key, v)]
  }

  function Stored<K(==), V>(m: Entries<K, V>, max: int, key: K, value: V): Entries<K, V> {
    var n := MapDelete(m, key) + [(key, value)];
    if |n| > max then n[1..] else n
  }

  lemma KeysSnoc<K, V>(m: Entries<K, V>, e: (K, V))
    ensures Keys(m + [e]) == Keys(m) + [e.0]
    ensures Distinct(Keys(m)) && e.0 !in Keys(m) ==> Distinct(Keys(m + [e]))
  {
    assert Keys(m + [e]) == Keys(m) + [e.0];
  }

  lemma KeysDelete<K, V>(m: Entries<K, V>, key: K, i: nat)
    requires Find(m, key) == Some(i)
    ensures Keys(MapDelete(m, key)) == Keys(m)[..i] + Keys(m)[i + 1..]
  {
    hide Find;
    assert |MapDelete(m, key)| == |m| - 1;
  }

  lemma WithoutDistinct<K>(ks: seq<K>, i: nat)
    requires i < |ks| && Distinct(ks)
    ensures var d := ks[..i] + ks[i + 1..];
            Distinct(d) && forall k :: k in d <==> k in ks && k != ks[i]
  {
    var d := ks[..i] + ks[i + 1..];
    forall k
      ensures k in d <==> k in ks && k != ks[i]
    {
      if k in ks && k != ks[i] {
        var j :| 0 <= j < |ks| && ks[j] == k;
        assert d[if j < i then j else j - 1] == k;
      }
    }
  }

  lemma DeleteDistinct<K, V>(m: Entries<K, V>, key: K)
    requires Distinct(Keys(m))
    ensures Distinct(Keys(MapDelete(m, key)))
    ensures forall k :: k in Keys(MapDelete(m, key)) <==> k in Keys(m) && k != key
  {
    hide Distinct, Find;
    match Find(m, key)
    case None =>
    case Some(i) =>
      KeysDelete(m, key, i);
      WithoutDistinct(Keys(m), i);
      assert Keys(m)[i] == key;
  }

  lemma SetAbsent<K, V>(m: Entries<K, V>, key: K, value: V)
    requires key !in Keys(m)
    ensures MapSet(m, key, value) == m + [(key, value)]
  {
    FoundIsMember(m, key);
  }

  lemma FoundIsMember<K, V>(m: Entries<K, V>, key: K)
    ensures Find(m, key).Some? <==> key in Keys(m)
  {
    if Find(m, key).Some? {
      assert Keys(m)[Find(m, key).value] == key;
    }
  }

  class LRU<K(==), V> {
    var entries: Entries<K, V>
    const max: int

    ghost predicate Valid()
      reads this
    {
      Distinct(Keys(entries)) && (max >= 0 ==> |entries| <= max) && (max < 0 ==> entries == [])
    }

    constructor (max: int)
      ensures Valid() && entries == [] && this.max == max
    {
      this.max := max;
      entries := [];
    }

    method Get(key: K) returns (r: Option<V>)
      requires Valid()
      modifies this
      ensures Valid() && r == MapGet(old(entries), key) && entries == Touched(old(entries), key)
    {
      var v := MapGet(entries, key);
      if v.None? {
        return None;
      }
      DeleteDistinct(entries, key);
      entries := MapDelete(entries, key);
      SetAbsent(entries, key, v.value);
      KeysSnoc(entries, (key, v.value));
      entries := MapSet(entries, key, v.value);
      return v;
    }

    method Set(key: K, value: V)
      requires Valid()
      modifies this
      ensures Valid() && entries == Stored(old(entries), max, key, value)
    {
      DeleteDistinct(entries, key);
      if Find(entries, key).Some? {
        entries := MapDelete(entries, key);
      }
      SetAbsent(entries, key, value);
      KeysSnoc(entries, (key, value));
      entries := MapSet(entries, key, value);
      if |entries| > max {
        var oldest := entries[0].0;
        DeleteDistinct(entries, oldest);
        entries := MapDelete(entries, oldest);
      }
    }
  }

  // ---- runs: look a key up, and store a freshly made value on a miss ----

  /** A request for a key, with the value that would be made for it now. */
  datatype Request<K, V> = Request(key: K, made: V)

  function Serve<K(==), V>(m: Entries<K, V>, r: Request<K, V>): V {
    match MapGet(m, r.key) case Some(v) => v case None => r.made
  }

  function After<K(==), V>(m: Entries<K, V>, max: int, r: Request<K, V>): Entries<K, V> {
    if MapGet(m, r.key).Some? then Touched(m, r.key) else Stored(m, max, r.key, r.made)
  }

  /** The cache after a run from empty. */
  function Run<K(==), V>(max: int, rs: seq<Request<K, V>>): Entries<K, V> {
    if rs == [] then [] else After(Run(max, rs[..|rs| - 1]), max, rs[|rs| - 1])
  }

  /** What the last request of a non-empty run was answered with. */
  function Answer<K(==), V>(max: int, rs: seq<Request<K, V>>): V
    requires rs != []
  {
    Serve(Run(max, rs[..|rs| - 1]), rs[|rs| - 1])
  }

  /** Position of the last request for a key. */
  function LastRequest<K(==), V>(rs: seq<Request<K, V>>, key: K): (r: Option<nat>)
    ensures r.Some? ==> r.value < |rs| && rs[r.value].key == key
    ensures r.Some? ==> forall j | r.value < j < |rs| :: rs[j].key != key
    ensures r.None? ==> forall j | 0 <= j < |rs| :: rs[j].key != key
  {
    if rs == [] then None
    else if rs[|rs| - 1].key == key then Some(|rs| - 1)
    else LastRequest(rs[..|rs| - 1], key)
  }

  ghost function Requested<K, V>(rs: seq<Request<K, V>>): set<K> {
    set i | 0 <= i < |rs| :: rs[i].key
  }

  /** The number of different keys requested since a key was last asked for, that key included. */
  ghost function Age<K, V>(rs: seq<Request<K, V>>, key: K): nat {
    match LastRequest(rs, key) case None => 0 case Some(i) => |Requested(rs[i..])|
  }

  /** Entries stand in order of their last request: their ages count down to one. */
  ghost predicate Aged<K, V>(rs: seq<Request<K, V>>, m: Entries<K, V>) {
    forall i | 0 <= i < |m| :: Age(rs, m[i].0) == |m| - i
  }

  /** Exactly the keys since whose last request at most "max" different keys have been asked for. */
  ghost predicate Complete<K(!new), V>(max: int, rs: seq<Request<K, V>>, m: Entries<K, V>) {
    forall key :: key in Keys(m) <==> 1 <= Age(rs, key) <= max
  }

  /** Every value is the one that the last request for its key was answered with. */
  ghost predicate Answered<K, V>(max: int, rs: seq<Request<K, V>>, m: Entries<K, V>) {
    forall i | 0 <= i < |m| ::
      LastRequest(rs, m[i].0).Some? && m[i].1 == Answer(max, rs[..LastRequest(rs, m[i].0).value + 1])
  }

  /** The cache is what the run calls for. */
  ghost predicate Faithful<K(!new), V>(max: int, rs: seq<Request<K, V>>, m: Entries<K, V>) {
    Distinct(Keys(m)) && Aged(rs, m) && Complete(max, rs, m) && Answered(max, rs, m)
  }

  // ---- ages ----

  lemma RequestedSubset<K, V>(rs: seq<Request<K, V>>, i: nat, j: nat)
    requires i <= j <= |rs|
    ensures Requested(rs[j..]) <= Requested(rs[i..])
  {
    forall k | k in Requested(rs[j..])
      ensures k in Requested(rs[i..])
    {
      var x :| 0 <= x < |rs[j..]| && rs[j..][x].key == k;
      assert rs[i..][x + (j - i)].key == k;
    }
  }

  lemma RequestedHas<K, V>(rs: seq<Request<K, V>>, i: nat, j: nat)
    requires i <= j < |rs|
    ensures rs[j].key in Requested(rs[i..])
  {
    assert rs[i..][j - i] == rs[j];
  }

  lemma SubsetSize<K>(a: set<K>, b: set<K>)
    requires a <= b
    ensures |a| <= |b| && (|a| == |b| ==> a == b)
  {
    if a != b {
      var d := b - a;
      assert b == a + d && a !! d;
      assert |b| == |a| + |d|;
      var x :| x in d;
      assert |d| > 0;
    }
  }

  /** The younger of two keys is the one requested later. */
  lemma AgeOrder<K, V>(rs: seq<Request<K, V>>, key: K, other: K)
    requires LastRequest(rs, key).Some? && LastRequest(rs, other).Some? && key != other
    ensures key in Requested(rs[LastRequest(rs, other).value..]) <==> Age(rs, key) < Age(rs, other)
    ensures Age(rs, key) != Age(rs, other)
  {
    var i, j := LastRequest(rs, key).value, LastRequest(rs, other).value;
    if i < j {
      StrictlyOlder(rs, key, other);
      NotSince(rs, key, j);
    } else {
      StrictlyOlder(rs, other, key);
      RequestedHas(rs, j, i);
    }
  }

  lemma NotSince<K, V>(rs: seq<Request<K, V>>, key: K, j: nat)
    requires LastRequest(rs, key).Some? ==> LastRequest(rs, key).value < j
    requires j <= |rs|
    ensures key !in Requested(rs[j..])
  {}

  lemma StrictlyOlder<K, V>(rs: seq<Request<K, V>>, older: K, newer: K)
    requires LastRequest(rs, older).Some? && LastRequest(rs, newer).Some?
    requires LastRequest(rs, older).value < LastRequest(rs, newer).value
    ensures Age(rs, newer) < Age(rs, older)
  {
    var i, j := LastRequest(rs, older).value, LastRequest(rs, newer).value;
    RequestedSubset(rs, i, j);
    SubsetSize(Requested(rs[j..]), Requested(rs[i..]));
    NotSince(rs, older, j);
    RequestedHas(rs, i, i);
  }

  lemma AgePositive<K, V>(rs: seq<Request<K, V>>, key: K)
    ensures Age(rs, key) >= 1 <==> LastRequest(rs, key).Some?
  {
    if LastRequest(rs, key).Some? {
      var i := LastRequest(rs, key).value;
      RequestedHas(rs, i, i);
      SubsetSize({key}, Requested(rs[i..]));
    }
  }

  lemma LastStep<K, V>(rs: seq<Request<K, V>>, r: Request<K, V>, key: K)
    ensures LastRequest(rs + [r], key) == if key == r.key then Some(|rs|) else LastRequest(rs, key)
  {
    var all := rs + [r];
    assert all[..|all| - 1] == rs;
  }

  lemma AgeOfRequested<K, V>(rs: seq<Request<K, V>>, r: Request<K, V>)
    ensures Age(rs + [r], r.key) == 1
  {
    hide LastRequest;
    LastStep(rs, r, r.key);
    assert (rs + [r])[|rs|..] == [r];
    assert Requested([r]) == {r.key};
  }

  /** How a request changes the age of another key: it grows by one, unless the key requested was
      already younger. */
  lemma AgeOfOther<K, V>(rs: seq<Request<K, V>>, r: Request<K, V>, key: K)
    requires key != r.key
    ensures Age(rs, key) == 0 ==> Age(rs + [r], key) == 0
    ensures Age(rs, key) >= 1 ==> Age(rs, key) != Age(rs, r.key)
    ensures Age(rs, key) >= 1 ==>
              Age(rs + [r], key) == Age(rs, key) + if 1 <= Age(rs, r.key) < Age(rs, key) then 0 else 1
  {
    hide LastRequest, Requested;
    LastStep(rs, r, key);
    AgePositive(rs, key);
    AgePositive(rs, r.key);
    if LastRequest(rs, key).Some? {
      var i := LastRequest(rs, key).value;
      assert (rs + [r])[i..] == rs[i..] + [r];
      RequestedSnoc(rs[i..], r);
      if LastRequest(rs, r.key).Some? {
        AgeOrder(rs, r.key, key);
      } else {
        NotSince(rs, r.key, i);
      }
    }
  }

  lemma RequestedSnoc<K, V>(rs: seq<Request<K, V>>, r: Request<K, V>)
    ensures Requested(rs + [r]) == Requested(rs) + {r.key}
  {
    var all := rs + [r];
    forall k | k in Requested(rs) + {r.key}
      ensures k in Requested(all)
    {
      if k == r.key {
        assert all[|rs|].key == k;
      } else {
        var x :| 0 <= x < |rs| && rs[x].key == k;
        assert all[x].key == k;
      }
    }
  }

  // ---- every run is faithful ----

  /** A hit moves the key to the young end. */
  lemma HitAged<K(!new), V>(max: int, rs: seq<Request<K, V>>, m: Entries<K, V>, r: Request<K, V>)
    requires Distinct(Keys(m)) && Aged(rs, m) && MapGet(m, r.key).Some?
    ensures Aged(rs + [r], Touched(m, r.key))
  {
    hide Age;
    var p := Find(m, r.key).value;
    var n := Touched(m, r.key);
    assert n == m[..p] + m[p + 1..] + [(r.key, m[p].1)];
    forall i | 0 <= i < |n|
      ensures Age(rs + [r], n[i].0) == |n| - i
    {
      if i < |m| - 1 {
        var q := if i < p then i else i + 1;
        assert n[i] == m[q];
        assert Keys(m)[q] != Keys(m)[p];
        AgeOfOther(rs, r, n[i].0);
      } else {
        AgeOfRequested(rs, r);
      }
    }
  }

  lemma HitComplete<K(!new), V>(max: int, rs: seq<Request<K, V>>, m: Entries<K, V>, r: Request<K, V>)
    requires Distinct(Keys(m)) && Complete(max, rs, m) && MapGet(m, r.key).Some?
    ensures Complete(max, rs + [r], Touched(m, r.key)) && Distinct(Keys(Touched(m, r.key)))
  {
    hide Age, Distinct, MapDelete, Find;
    var n := Touched(m, r.key);
    var v := MapGet(m, r.key).value;
    DeleteDistinct(m, r.key);
    KeysSnoc(MapDelete(m, r.key), (r.key, v));
    FoundIsMember(m, r.key);
    AgeOfRequested(rs, r);
    forall key
      ensures key in Keys(n) <==> 1 <= Age(rs + [r], key) <= max
    {
      if key != r.key {
        AgeOfOther(rs, r, key);
      }
    }
  }

  lemma AnswerIs<K, V>(max: int, rs: seq<Request<K, V>>, r: Request<K, V>)
    ensures Answer(max, rs + [r]) == Serve(Run(max, rs), r)
  {
    assert (rs + [r])[..|rs + [r]| - 1] == rs;
  }

  /** Entries carried over keep the value that their last request was answered with. */
  lemma ValuesKept<K, V>(max: int, rs: seq<Request<K, V>>, m: Entries<K, V>, r: Request<K, V>, n: Entries<K, V>)
    requires Answered(max, rs, m)
    requires forall i | 0 <= i < |n| :: n[i] in m || n[i] == (r.key, Answer(max, rs + [r]))
    requires forall i | 0 <= i < |n| :: n[i].0 == r.key ==> n[i].1 == Answer(max, rs + [r])
    ensures Answered(max, rs + [r], n)
  {
    hide LastRequest, Answer;
    var all := rs + [r];
    forall i | 0 <= i < |n|
      ensures LastRequest(all, n[i].0).Some? &&
              n[i].1 == Answer(max, all[..LastRequest(all, n[i].0).value + 1])
    {
      LastStep(rs, r, n[i].0);
      if n[i].0 == r.key {
        assert all[..|rs| + 1] == all;
      } else {
        var j :| 0 <= j < |m| && m[j] == n[i];
        var last := LastRequest(rs, n[i].0).value;
        assert all[..last + 1] == rs[..last + 1];
      }
    }
  }

  lemma HitAnswered<K, V>(max: int, rs: seq<Request<K, V>>, m: Entries<K, V>, r: Request<K, V>)
    requires Distinct(Keys(m)) && Answered(max, rs, m) && m == Run(max, rs) && MapGet(m, r.key).Some?
    ensures Answered(max, rs + [r], Touched(m, r.key))
  {
    hide Run, Answer, Answered, LastRequest;
    var p := Find(m, r.key).value;
    var n := Touched(m, r.key);
    AnswerIs(max, rs, r);
    assert n == m[..p] + m[p + 1..] + [(r.key, m[p].1)];
    forall i | 0 <= i < |n|
      ensures n[i] in m
      ensures n[i].0 == r.key ==> n[i].1 == Answer(max, rs + [r])
    {
      var q := if i < p then i else if i < |m| - 1 then i + 1 else p;
      assert n[i] == m[q];
      assert q != p ==> Keys(m)[q] != Keys(m)[p];
    }
    ValuesKept(max, rs, m, r, n);
  }

  /** A miss adds the key at the young end; one entry drops out at the old end when there are too many. */
  lemma MissAged<K, V>(max: int, rs: seq<Request<K, V>>, m: Entries<K, V>, r: Request<K, V>)
    requires Aged(rs, m) && MapGet(m, r.key).None?
    requires Age(rs, r.key) == 0 || Age(rs, r.key) > |m|
    ensures Aged(rs + [r], m + [(r.key, r.made)])
  {
    hide Age;
    var full := m + [(r.key, r.made)];
    AgeOfRequested(rs, r);
    forall i | 0 <= i < |full|
      ensures Age(rs + [r], full[i].0) == |full| - i
    {
      if i < |m| {
        assert Keys(m)[i] in Keys(m);
        AgeOfOther(rs, r, full[i].0);
      }
    }
  }

  lemma DeleteAbsent<K, V>(m: Entries<K, V>, key: K)
    requires MapGet(m, key).None?
    ensures MapDelete(m, key) == m && key !in Keys(m)
  {}

  /** Dropping the oldest entries leaves the ages of the others alone. */
  lemma DropOldest<K, V>(rs: seq<Request<K, V>>, full: Entries<K, V>, cut: nat)
    requires Aged(rs, full) && cut <= |full|
    ensures Aged(rs, full[cut..]) && Keys(full[cut..]) == Keys(full)[cut..]
  {
    hide Age;
    var n := full[cut..];
    forall i | 0 <= i < |n|
      ensures Age(rs, n[i].0) == |n| - i
    {
      assert n[i] == full[i + cut];
    }
  }

  /** When the ages count down to one, membership is a bound on the age. */
  lemma AgedMember<K, V>(rs: seq<Request<K, V>>, full: Entries<K, V>, cut: nat, key: K)
    requires Aged(rs, full) && cut <= |full| && key in Keys(full)
    ensures key in Keys(full[cut..]) <==> Age(rs, key) <= |full| - cut
  {
    hide Age;
    DropOldest(rs, full, cut);
    var i :| 0 <= i < |full| && Keys(full)[i] == key;
    assert Age(rs, full[i].0) == |full| - i;
    if cut <= i {
      assert Keys(full[cut..])[i - cut] == key;
    }
    if key in Keys(full[cut..]) {
      var j :| 0 <= j < |full| - cut && Keys(full[cut..])[j] == key;
      assert full[cut..][j].0 == key;
      assert Age(rs, full[cut..][j].0) == |full| - cut - j;
    }
  }

  lemma MissComplete<K(!new), V>(max: int, rs: seq<Request<K, V>>, m: Entries<K, V>, r: Request<K, V>)
    requires Aged(rs, m) && Complete(max, rs, m) && MapGet(m, r.key).None? && |m| <= Max(max, 0)
    ensures Aged(rs + [r], Stored(m, max, r.key, r.made))
    ensures Complete(max, rs + [r], Stored(m, max, r.key, r.made))
  {
    hide Age, Aged, MapGet, MapDelete, Keys, Complete;
    var full := m + [(r.key, r.made)];
    DeleteAbsent(m, r.key);
    KeysSnoc(m, (r.key, r.made));
    assert Age(rs, r.key) == 0 || Age(rs, r.key) > |m| by {
      NotHeld(max, rs, m, r.key);
    }
    MissAged(max, rs, m, r);
    var n := Stored(m, max, r.key, r.made);
    var cut := |full| - |n|;
    assert n == full[cut..];
    DropOldest(rs + [r], full, cut);
    forall key
      ensures key in Keys(n) <==> 1 <= Age(rs + [r], key) <= max
    {
      if key in Keys(full) {
        AgedMember(rs + [r], full, cut, key);
        AgedMember(rs + [r], full, 0, key);
        assert full[0..] == full;
        AgeAtLeastOne(rs + [r], full, key);
      } else {
        NotHeld(max, rs, m, key);
        AgeOfOther(rs, r, key);
        SuffixMember(Keys(full), cut, key);
      }
    }
    assert Complete(max, rs + [r], n) by {
      CompleteIs(max, rs + [r], n);
    }
  }

  lemma NotHeld<K(!new), V>(max: int, rs: seq<Request<K, V>>, m: Entries<K, V>, key: K)
    requires Complete(max, rs, m) && key !in Keys(m)
    ensures Age(rs, key) == 0 || Age(rs, key) > max
  {
    hide Age;
  }

  lemma CompleteIs<K(!new), V>(max: int, rs: seq<Request<K, V>>, m: Entries<K, V>)
    requires forall key :: key in Keys(m) <==> 1 <= Age(rs, key) <= max
    ensures Complete(max, rs, m)
  {
    hide Age, Keys;
  }

  lemma SuffixMember<K>(ks: seq<K>, cut: nat, key: K)
    requires cut <= |ks| && key !in ks
    ensures key !in ks[cut..]
  {}

  lemma AgeAtLeastOne<K, V>(rs: seq<Request<K, V>>, m: Entries<K, V>, key: K)
    requires Aged(rs, m) && key in Keys(m)
    ensures Age(rs, key) >= 1
  {
    hide Age;
    var i :| 0 <= i < |m| && Keys(m)[i] == key;
    assert Age(rs, m[i].0) == |m| - i;
  }

  lemma MissDistinct<K, V>(max: int, m: Entries<K, V>, r: Request<K, V>)
    requires Distinct(Keys(m)) && MapGet(m, r.key).None?
    ensures Distinct(Keys(Stored(m, max, r.key, r.made)))
  {
    hide MapGet, MapDelete;
    DeleteAbsent(m, r.key);
    var full := m + [(r.key, r.made)];
    KeysSnoc(m, (r.key, r.made));
    assert Keys(full[1..]) == Keys(full)[1..];
  }

  lemma MissAnswered<K, V>(max: int, rs: seq<Request<K, V>>, m: Entries<K, V>, r: Request<K, V>)
    requires Answered(max, rs, m) && m == Run(max, rs) && MapGet(m, r.key).None?
    ensures Answered(max, rs + [r], Stored(m, max, r.key, r.made))
  {
    hide Run, Answer, Answered, LastRequest, MapDelete;
    DeleteAbsent(m, r.key);
    var n := Stored(m, max, r.key, r.made);
    AnswerIs(max, rs, r);
    forall i | 0 <= i < |n|
      ensures n[i] in m || n[i] == (r.key, r.made)
      ensures n[i].0 == r.key ==> n[i].1 == r.made
    {
      if n[i] in m {
        var j :| 0 <= j < |m| && m[j] == n[i];
        assert Keys(m)[j] in Keys(m);
      }
    }
    ValuesKept(max, rs, m, r, n);
  }

  /** A faithful cache is no larger than its capacity. */
  lemma SizeBound<K(!new), V>(max: int, rs: seq<Request<K, V>>, m: Entries<K, V>)
    requires Aged(rs, m) && Complete(max, rs, m)
    ensures |m| <= Max(max, 0)
  {
    hide Age;
    if m != [] {
      assert Keys(m)[0] == m[0].0;
      assert Age(rs, m[0].0) == |m|;
    }
  }

  /** The stack property, over every run: the cache holds exactly the most recently requested distinct
      keys, as many as fit, in order of recency, each with the value of its last answer. */
  lemma {:induction false} RunIsFaithful<K(!new), V>(max: int, rs: seq<Request<K, V>>)
    ensures Faithful(max, rs, Run(max, rs))
    decreases |rs|
  {
    hide Age, Answer, Aged, Complete, Answered, Distinct, Keys, Touched, Stored, MapGet;
    if rs == [] {
      EmptyFaithful<K, V>(max);
    } else {
      var before, r := rs[..|rs| - 1], rs[|rs| - 1];
      RunIsFaithful(max, before);
      var m := Run(max, before);
      if MapGet(m, r.key).Some? {
        HitAged(max, before, m, r);
        HitComplete(max, before, m, r);
        HitAnswered(max, before, m, r);
      } else {
        SizeBound(max, before, m);
        MissComplete(max, before, m, r);
        MissDistinct(max, m, r);
        MissAnswered(max, before, m, r);
      }
      assert before + [r] == rs;
    }
  }

  lemma EmptyFaithful<K(!new), V>(max: int)
    ensures Faithful<K, V>(max, [], [])
  {}

  /** A larger cache holds everything a smaller one holds, so it never misses where that one hits. */
  lemma LargerHoldsMore<K(!new), V>(small: int, large: int, rs: seq<Request<K, V>>, key: K)
    requires small <= large && key in Keys(Run(small, rs))
    ensures key in Keys(Run(large, rs))
  {
    hide Age, Run, Answer;
    RunIsFaithful(small, rs);
    RunIsFaithful(large, rs);
  }
}
