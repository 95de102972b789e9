/** The ordered, case-insensitive header collection of src/flow/headers.ts. */
module Headers {
  import opened Prelude
  import opened Text

  type Fields = seq<(string, string)>

  predicate Named(field: (string, string), name: string) {
    Lower(field.0) == Lower(name)
  }

  /** The values of all fields of a name, in order. */
  function ValuesOf(fields: Fields, name: string): seq<string> {
    if fields == [] then []
    else (if Named(fields[0], name) then [fields[0].1] else []) + ValuesOf(fields[1..], name)
  }

  function HGet(fields: Fields, name: string): Option<string> {
    var values := ValuesOf(fields, name);
    if values == [] then None else Some(Join(values, ", "))
  }

  predicate HHas(fields: Fields, name: string) {
    exists i | 0 <= i < |fields| :: Named(fields[i], name)
  }

  function HDelete(fields: Fields, name: string): Fields {
    if fields == [] then []
    else (if Named(fields[0], name) then [] else [fields[0]]) + HDelete(fields[1..], name)
  }

  /** The first field of the name takes the value and keeps its spelling; the others go. */
  function HSet(fields: Fields, name: string, value: string): Fields {
    if fields == [] then [(name, value)]
    else if Named(fields[0], name) then [(fields[0].0, value)] + HDelete(fields[1..], name)
    else [fields[0]] + HSet(fields[1..], name, value)
  }

  /** All fields of the name but the first are gone. */
  function KeepFirst(fields: Fields, name: string): Fields {
    if fields == [] then []
    else if Named(fields[0], name) then [fields[0]] + HDelete(fields[1..], name)
    else [fields[0]] + KeepFirst(fields[1..], name)
  }

  /** Position of the first field of the name, or the length when there is none. */
  function FirstNamed(fields: Fields, name: string): (r: nat)
    ensures r <= |fields| && (HHas(fields, name) ==> r < |fields|)
  {
    if fields == [] || Named(fields[0], name) then 0
    else
      assert HHas(fields, name) ==> HHas(fields[1..], name) by {
        HasTail(fields, name);
      }
      1 + FirstNamed(fields[1..], name)
  }

  lemma HasTail(fields: Fields, name: string)
    requires fields != [] && !Named(fields[0], name)
    ensures HHas(fields, name) <==> HHas(fields[1..], name)
  {
    hide Named;
    if HHas(fields, name) {
      var i :| 0 <= i < |fields| && Named(fields[i], name);
      assert fields[1..][i - 1] == fields[i];
    }
    if HHas(fields[1..], name) {
      var i :| 0 <= i < |fields[1..]| && Named(fields[1..][i], name);
      assert fields[i + 1] == fields[1..][i];
    }
  }

  lemma FilterStep(fields: Fields, name: string)
    requires fields != []
    ensures HDelete(fields, name)
            == (if Named(fields[0], name) then [] else [fields[0]]) + HDelete(fields[1..], name)
    ensures KeepFirst(fields, name)
            == [fields[0]] + if Named(fields[0], name) then HDelete(fields[1..], name) else KeepFirst(fields[1..], name)
  {
    hide Named;
  }

  lemma FilterEnd(fields: Fields, name: string)
    requires fields == []
    ensures HDelete(fields, name) == [] && KeepFirst(fields, name) == []
  {}

  /** Filtering and then rewriting the slot, or appending, is setting. */
  lemma {:induction false} RewriteKept(fields: Fields, name: string, value: string)
    ensures var kept := KeepFirst(fields, name);
            var idx := FirstNamed(kept, name);
            HSet(fields, name, value)
            == (if HHas(fields, name) && idx < |kept| then kept[idx := (kept[idx].0, value)]
                else kept + [(name, value)])
    ensures HHas(fields, name) ==> HHas(KeepFirst(fields, name), name)
    decreases |fields|
  {
    hide Named;
    if fields != [] {
      var kept := KeepFirst(fields, name);
      if Named(fields[0], name) {
        assert kept[0] == fields[0];
        assert HHas(kept, name);
      } else {
        RewriteKept(fields[1..], name, value);
        HasTail(fields, name);
        assert kept[0] == fields[0] && kept[1..] == KeepFirst(fields[1..], name);
        HasTail(kept, name);
      }
    }
  }

  /** The collection itself; "set" filters and then rewrites the slot that is left, as the program does. */
  class HeaderList {
    var fields: Fields

    constructor (init: Fields)
      ensures fields == init
    {
      fields := init;
    }

    method Get(name: string) returns (r: Option<string>)
      ensures r == HGet(fields, name)
    {
      hide ValuesOf;
      var values := Values(name);
      r := if values == [] then None else Some(Join(values, ", "));
    }

    method Values(name: string) returns (values: seq<string>)
      ensures values == ValuesOf(fields, name)
    {
      hide Named;
      values := [];
      var i := |fields|;
      assert fields[i..] == [];
      while i > 0
        invariant 0 <= i <= |fields|
        invariant values == ValuesOf(fields[i..], name)
      {
        i := i - 1;
        assert fields[i..][1..] == fields[i + 1..];
        if Named(fields[i], name) {
          values := [fields[i].1] + values;
        }
      }
      assert fields[0..] == fields;
    }

    method Has(name: string) returns (r: bool)
      ensures r == HHas(fields, name)
    {
      for i := 0 to |fields|
        invariant forall k | 0 <= k < i :: !Named(fields[k], name)
      {
        if Named(fields[i], name) {
          return true;
        }
      }
      return false;
    }

    /** The fields with only the first of the name kept, and whether there was one. */
    method Filter(name: string) returns (kept: Fields, placed: bool)
      ensures kept == KeepFirst(fields, name) && placed == HHas(fields, name)
    {
      hide Named, HDelete, KeepFirst;
      placed := false;
      kept := [];
      var i := 0;
      assert fields[0..] == fields;
      while i < |fields|
        invariant 0 <= i <= |fields|
        invariant kept + (if placed then HDelete(fields[i..], name) else KeepFirst(fields[i..], name))
                  == KeepFirst(fields, name)
        invariant placed <==> exists k | 0 <= k < i :: Named(fields[k], name)
      {
        assert fields[i..][1..] == fields[i + 1..];
        FilterStep(fields[i..], name);
        if !Named(fields[i], name) {
          kept := kept + [fields[i]];
        } else if !placed {
          placed := true;
          kept := kept + [fields[i]];
        }
        i := i + 1;
      }
      FilterEnd(fields[i..], name);
      assert kept + [] == kept;
    }

    method Set(name: string, value: string)
      modifies this
      ensures fields == HSet(old(fields), name, value)
    {
      hide HDelete, KeepFirst, HSet, FirstNamed, HHas;
      var kept, placed := Filter(name);
      RewriteKept(fields, name, value);
      fields := kept;
      if placed {
        var idx := FirstNamed(fields, name);
        fields := fields[idx := (fields[idx].0, value)];
      } else {
        fields := fields + [(name, value)];
      }
    }

    method Add(name: string, value: string)
      modifies this
      ensures fields == old(fields) + [(name, value)]
    {
      fields := fields + [(name, value)];
    }

    method Delete(name: string)
      modifies this
      ensures fields == HDelete(old(fields), name)
    {
      hide Named;
      var kept: Fields := [];
      var i := 0;
      assert fields[0..] == fields;
      while i < |fields|
        invariant 0 <= i <= |fields| && fields == old(fields)
        invariant kept + HDelete(fields[i..], name) == HDelete(fields, name)
      {
        assert fields[i..][1..] == fields[i + 1..];
        if !Named(fields[i], name) {
          kept := kept + [fields[i]];
        }
        i := i + 1;
      }
      assert kept + [] == kept;
      fields := kept;
    }

    /** A copy that later changes to either do not reach. */
    method Clone() returns (copy: HeaderList)
      ensures fresh(copy) && copy.fields == fields
    {
      copy := new HeaderList(fields);
    }
  }

  // ---- laws ----

  /** One more field at the end: its value is joined to the others of its name, in any spelling, by a comma and a
      space. */
  lemma AddLaw(fields: Fields, field: (string, string), other: string)
    ensures HGet(fields + [field], other)
            == if Lower(other) != Lower(field.0) then HGet(fields, other)
               else match HGet(fields, other) case None => Some(field.1) case Some(x) => Some(x + ", " + field.1)
  {
    hide Lower;
    ValuesAppend(fields, field, other);
    if Lower(other) == Lower(field.0) {
      JoinOneMore(ValuesOf(fields, other), field.1);
    } else {
      assert ValuesOf(fields, other) + [] == ValuesOf(fields, other);
    }
  }

  lemma {:induction false} ValuesAppend(fields: Fields, field: (string, string), other: string)
    ensures ValuesOf(fields + [field], other)
            == ValuesOf(fields, other) + if Lower(other) == Lower(field.0) then [field.1] else []
    decreases |fields|
  {
    hide Lower;
    if fields == [] {
      assert fields + [field] == [field] && [field][1..] == [];
    } else {
      assert (fields + [field])[1..] == fields[1..] + [field];
      ValuesAppend(fields[1..], field, other);
    }
  }

  lemma {:induction false} JoinOneMore(parts: seq<string>, last: string)
    ensures Join(parts + [last], ", ") == if parts == [] then last else Join(parts, ", ") + ", " + last
    decreases |parts|
  {
    if parts == [] {
      assert parts + [last] == [last];
    } else {
      assert (parts + [last])[1..] == parts[1..] + [last];
      JoinOneMore(parts[1..], last);
    }
  }

  lemma {:induction false} DeleteValues(fields: Fields, name: string, other: string)
    ensures ValuesOf(HDelete(fields, name), other)
            == if Lower(other) == Lower(name) then [] else ValuesOf(fields, other)
    decreases |fields|
  {
    hide Lower;
    if fields != [] {
      DeleteValues(fields[1..], name, other);
      var d := HDelete(fields[1..], name);
      if Named(fields[0], name) {
        assert [] + d == d;
      } else {
        assert ([fields[0]] + d)[1..] == d;
      }
    }
  }

  /** Deleting a name, in any spelling, removes all its fields and touches no other name. */
  lemma DeleteLaw(fields: Fields, name: string, other: string)
    ensures HGet(HDelete(fields, name), other) == if Lower(other) == Lower(name) then None else HGet(fields, other)
  {
    hide Lower;
    DeleteValues(fields, name, other);
  }

  lemma {:induction false} SetValues(fields: Fields, name: string, value: string, other: string)
    ensures ValuesOf(HSet(fields, name, value), other)
            == if Lower(other) == Lower(name) then [value] else ValuesOf(fields, other)
    decreases |fields|
  {
    hide Lower;
    if fields == [] {
      assert [(name, value)][1..] == [];
    } else if Named(fields[0], name) {
      var d := HDelete(fields[1..], name);
      DeleteValues(fields[1..], name, other);
      assert ([(fields[0].0, value)] + d)[1..] == d;
    } else {
      SetValues(fields[1..], name, value, other);
      var s := HSet(fields[1..], name, value);
      assert ([fields[0]] + s)[1..] == s;
    }
  }

  /** Setting a name leaves it with exactly that value, in any spelling, and touches no other name. */
  lemma SetLaw(fields: Fields, name: string, value: string, other: string)
    ensures HGet(HSet(fields, name, value), other)
            == if Lower(other) == Lower(name) then Some(value) else HGet(fields, other)
  {
    hide Lower;
    SetValues(fields, name, value, other);
    assert Join([value], ", ") == value;
  }

  lemma {:induction false} HasValues(fields: Fields, name: string)
    ensures HHas(fields, name) <==> ValuesOf(fields, name) != []
    decreases |fields|
  {
    hide Named;
    if fields != [] {
      HasValues(fields[1..], name);
      if !Named(fields[0], name) {
        HasTail(fields, name);
      }
    }
  }
}
