/**
 * StdDirectionUnitBuilder: a fluent builder for one direction unit and a
 * pending list of child builders. The unit is created by the first name()
 * call; build() builds each pending child in order, attaches it to the unit
 * and drops it from the pending list.
 */
module UnitBuilders {
  import opened Wrappers
  import opened LinkedMaps
  import opened DirectionUnits
  import StringUtils

  datatype BuilderError =
    | IllegalArgument   // AssertUtils: a null parent, a blank name or no unit created yet
    | NoSuchParent      // NoSuchParentException
    | NullPointer       // removeIf meets a pending child without a unit

  /** The name and unit of a pending child builder, if it has a unit. */
  function EntryOf(b: UnitBuilder): Option<(string, StdDirectionUnit)>
    reads b, b.unit
  {
    if b.unit == null then None else var u: StdDirectionUnit := b.unit; Some((u.name, u))
  }

  /** Map.put of each entry in turn; a missing entry is skipped. */
  function PutEntries(m: LinkedMap<string, StdDirectionUnit>, es: seq<Option<(string, StdDirectionUnit)>>): (r: LinkedMap<string, StdDirectionUnit>)
    requires m.Valid()
    ensures r.Valid()
    decreases |es|
  {
    if |es| == 0 then m
    else PutEntries(if es[0].None? then m else m.Put(es[0].value.0, es[0].value.1), es[1..])
  }

  lemma {:induction false} PutEntriesLast(m: LinkedMap<string, StdDirectionUnit>, es: seq<Option<(string, StdDirectionUnit)>>,
                                          e: Option<(string, StdDirectionUnit)>)
    requires m.Valid()
    ensures PutEntries(m, es + [e]) == if e.None? then PutEntries(m, es) else PutEntries(m, es).Put(e.value.0, e.value.1)
    decreases |es|
  {
    if |es| == 0 {
      assert [] + [e] == [e];
    } else {
      assert (es + [e])[1..] == es[1..] + [e];
      PutEntriesLast(if es[0].None? then m else m.Put(es[0].value.0, es[0].value.1), es[1..], e);
    }
  }

  /** One more entry of a list, put after the ones before it. */
  lemma PutEntriesStep(m: LinkedMap<string, StdDirectionUnit>, es: seq<Option<(string, StdDirectionUnit)>>, i: nat)
    requires m.Valid() && i < |es|
    ensures PutEntries(m, es[..i + 1]) == if es[i].None? then PutEntries(m, es[..i]) else PutEntries(m, es[..i]).Put(es[i].value.0, es[i].value.1)
    ensures es[i..][1..] == es[i + 1..]
  {
    assert es[..i + 1] == es[..i] + [es[i]];
    PutEntriesLast(m, es[..i], es[i]);
  }

  /** Every name put is a key afterwards, mapped to the last unit put under it. */
  lemma {:induction false} PutEntriesLastWins(m: LinkedMap<string, StdDirectionUnit>, es: seq<Option<(string, StdDirectionUnit)>>, k: nat)
    requires m.Valid() && k < |es| && es[k].Some?
    requires forall j :: k < j < |es| && es[j].Some? ==> es[j].value.0 != es[k].value.0
    ensures es[k].value.0 in PutEntries(m, es).entries
    ensures PutEntries(m, es).entries[es[k].value.0] == es[k].value.1
    decreases |es|
  {
    var next := if es[0].None? then m else m.Put(es[0].value.0, es[0].value.1);
    if k == 0 {
      PutEntriesKeeps(next, es[1..], es[0].value.0);
    } else {
      forall j | k - 1 < j < |es[1..]| && es[1..][j].Some?
        ensures es[1..][j].value.0 != es[1..][k - 1].value.0
      {
        assert es[1..][j] == es[j + 1];
      }
      PutEntriesLastWins(next, es[1..], k - 1);
    }
  }

  /** A key no later entry names keeps its value. */
  lemma {:induction false} PutEntriesKeeps(m: LinkedMap<string, StdDirectionUnit>, es: seq<Option<(string, StdDirectionUnit)>>, key: string)
    requires m.Valid() && key in m.entries
    requires forall j :: 0 <= j < |es| && es[j].Some? ==> es[j].value.0 != key
    ensures key in PutEntries(m, es).entries && PutEntries(m, es).entries[key] == m.entries[key]
    decreases |es|
  {
    if |es| > 0 {
      var next := if es[0].None? then m else m.Put(es[0].value.0, es[0].value.1);
      forall j | 0 <= j < |es[1..]| && es[1..][j].Some?
        ensures es[1..][j].value.0 != key
      {
        assert es[1..][j] == es[j + 1];
      }
      PutEntriesKeeps(next, es[1..], key);
    }
  }

  /** The name of a pending builder's unit, if it has one. */
  function NameOf(b: UnitBuilder): Option<string>
    reads b, b.unit
  {
    if b.unit == null then None else var u: StdDirectionUnit := b.unit; Some(u.name)
  }

  /** The unit names of the pending builders, in order. */
  ghost function NamesOf(bs: seq<UnitBuilder>): (names: seq<Option<string>>)
    reads bs, set b | b in bs :: b.unit
    ensures |names| == |bs| && forall k :: 0 <= k < |bs| ==> names[k] == NameOf(bs[k])
    decreases |bs|
  {
    if |bs| == 0 then [] else [NameOf(bs[0])] + NamesOf(bs[1..])
  }

  /** removeIf over the pending builders, on a LinkedList, given the name of
    * each builder's unit: builders whose unit is named `name` are dropped
    * one by one until a builder without a unit is met; that one and those
    * after it stay, and the call fails. */
  function RemoveNamed<T>(bs: seq<T>, names: seq<Option<string>>, name: string): (seq<T>, bool)
    requires |names| == |bs|
    decreases |bs|
  {
    if |bs| == 0 then ([], true)
    else if names[0].None? then (bs, false)
    else
      var rest := RemoveNamed(bs[1..], names[1..], name);
      if names[0] == Some(name) then rest else ([bs[0]] + rest.0, rest.1)
  }

  /** removeIf keeps only builders it was given; it completes exactly when
    * every builder has a unit, and then it keeps exactly the builders whose
    * unit has another name. */
  lemma {:induction false} RemoveNamedKeeps<T>(bs: seq<T>, names: seq<Option<string>>, name: string)
    requires |names| == |bs|
    ensures forall b :: b in RemoveNamed(bs, names, name).0 ==> b in bs
    ensures RemoveNamed(bs, names, name).1 <==> forall k :: 0 <= k < |bs| ==> names[k].Some?
    ensures RemoveNamed(bs, names, name).1 ==>
      forall k :: 0 <= k < |bs| && names[k] != Some(name) ==> bs[k] in RemoveNamed(bs, names, name).0
    ensures RemoveNamed(bs, names, name).1 ==>
      forall b :: b in RemoveNamed(bs, names, name).0 ==> exists k :: 0 <= k < |bs| && bs[k] == b && names[k] != Some(name)
    decreases |bs|
  {
    if |bs| > 0 && names[0].Some? {
      RemoveNamedKeeps(bs[1..], names[1..], name);
      var rest := RemoveNamed(bs[1..], names[1..], name);
      forall k | 1 <= k < |bs|
        ensures bs[k] == bs[1..][k - 1] && names[k] == names[1..][k - 1]
      {
      }
      if rest.1 {
        forall b | b in RemoveNamed(bs, names, name).0
          ensures exists k :: 0 <= k < |bs| && bs[k] == b && names[k] != Some(name)
        {
          if b in rest.0 {
            var j :| 0 <= j < |bs[1..]| && bs[1..][j] == b && names[1..][j] != Some(name);
            assert bs[j + 1] == b && names[j + 1] != Some(name);
          } else {
            assert bs[0] == b && names[0] != Some(name);
          }
        }
      }
    }
  }

  /** The entries of the pending builders, in order. */
  ghost function EntriesOf(bs: seq<UnitBuilder>): (es: seq<Option<(string, StdDirectionUnit)>>)
    reads bs, set b | b in bs :: b.unit
    ensures |es| == |bs| && forall k :: 0 <= k < |bs| ==> es[k] == EntryOf(bs[k])
    decreases |bs|
  {
    if |bs| == 0 then [] else [EntryOf(bs[0])] + EntriesOf(bs[1..])
  }

  /** The builders own pairwise disjoint footprints. */
  ghost predicate Disjoint(cs: seq<UnitBuilder>)
    reads cs
  {
    forall i, j :: 0 <= i < j < |cs| ==> cs[i].Repr !! cs[j].Repr
  }

  /** The builders `kept` so far put in front of the result of the rest of the scan. */
  function Concat(kept: seq<UnitBuilder>, rest: (seq<UnitBuilder>, bool)): (seq<UnitBuilder>, bool) {
    (kept + rest.0, rest.1)
  }

  /** Unfolding the scan at position `i`, where a builder with a unit stands. */
  lemma ScanUnfold(all: seq<UnitBuilder>, names: seq<Option<string>>, i: nat, name: string)
    requires |names| == |all| && i < |all| && names[i].Some?
    ensures var rest := RemoveNamed(all[i + 1..], names[i + 1..], name);
      RemoveNamed(all[i..], names[i..], name) == if names[i] == Some(name) then rest else ([all[i]] + rest.0, rest.1)
  {
    assert all[i..][0] == all[i] && all[i..][1..] == all[i + 1..];
    assert names[i..][0] == names[i] && names[i..][1..] == names[i + 1..];
  }

  /** A builder whose unit has another name is kept. */
  lemma ScanKeep(kept: seq<UnitBuilder>, c: UnitBuilder, rest: (seq<UnitBuilder>, bool))
    ensures Concat(kept, ([c] + rest.0, rest.1)) == Concat(kept + [c], rest)
  {
    assert kept + ([c] + rest.0) == (kept + [c]) + rest.0;
  }

  /** The builders the scan keeps own pairwise disjoint footprints when all did. */
  lemma {:induction false} RemoveNamedDisjoint(bs: seq<UnitBuilder>, names: seq<Option<string>>, name: string)
    requires |names| == |bs| && Disjoint(bs)
    ensures Disjoint(RemoveNamed(bs, names, name).0)
    decreases |bs|
  {
    if |bs| > 0 && names[0].Some? {
      var tail := bs[1..];
      assert Disjoint(tail) by {
        forall i, j | 0 <= i < j < |tail| ensures tail[i].Repr !! tail[j].Repr {
          assert tail[i] == bs[i + 1] && tail[j] == bs[j + 1];
        }
      }
      RemoveNamedDisjoint(tail, names[1..], name);
      RemoveNamedKeeps(tail, names[1..], name);
      var rest := RemoveNamed(tail, names[1..], name).0;
      if names[0] != Some(name) {
        var r := [bs[0]] + rest;
        forall i, j | 0 <= i < j < |r| ensures r[i].Repr !! r[j].Repr {
          if i == 0 {
            assert r[j] == rest[j - 1] && r[j] in tail;
            var k :| 0 <= k < |tail| && tail[k] == r[j];
            assert bs[0].Repr !! bs[k + 1].Repr;
          } else {
            assert r[i] == rest[i - 1] && r[j] == rest[j - 1];
          }
        }
      }
    }
  }

  /** The scan stops at a builder without a unit and fails, keeping it and those after it. */
  lemma ScanStop(all: seq<UnitBuilder>, names: seq<Option<string>>, i: nat, name: string)
    requires |names| == |all| && i < |all| && names[i].None?
    ensures RemoveNamed(all[i..], names[i..], name) == (all[i..], false)
  {
    assert names[i..][0] == names[i];
  }

  /** The loop of removeIf over a LinkedList of pending builders: the
    * builders kept, and whether the scan reached the end. */
  method ScanPending(all: seq<UnitBuilder>, childName: string) returns (remaining: seq<UnitBuilder>, ok: bool)
    ensures (remaining, ok) == RemoveNamed(all, NamesOf(all), childName)
  {
    ghost var names := NamesOf(all);
    ghost var target := RemoveNamed(all, names, childName);
    var kept: seq<UnitBuilder> := [];
    var i := 0;
    ok := true;
    assert all[0..] == all && names[0..] == names && [] + target.0 == target.0;
    while i < |all|
      invariant 0 <= i <= |all|
      invariant target == Concat(kept, RemoveNamed(all[i..], names[i..], childName))
    {
      var c := all[i];
      assert names[i] == NameOf(c);
      if c.unit == null {
        ScanStop(all, names, i, childName);
        ok := false;
        break;
      }
      ScanUnfold(all, names, i, childName);
      if c.unit.name != childName {
        ScanKeep(kept, c, RemoveNamed(all[i + 1..], names[i + 1..], childName));
        kept := kept + [c];
      }
      i := i + 1;
    }
    if ok {
      assert all[i..] == [] && kept + [] == kept;
    }
    remaining := kept + all[i..];
  }

  /** Pending builders whose footprints were left alone keep their
    * validity, their units and whether they are complete. */
  twostate lemma PendingUnchanged(rest: seq<UnitBuilder>)
    requires forall b :: b in rest ==> old(b.Valid()) && unchanged(old(b.Repr))
    ensures forall b :: b in rest ==>
      && b.Repr == old(b.Repr) && b.Valid() && b.unit == old(b.unit)
      && (b.unit != null ==> b.unit.parent == old(b.unit.parent) && b.unit.name == old(b.unit.name))
      && b.Incomplete() == old(b.Incomplete())
  {
  }

  /** No unit of `done` lies in the footprint of a pending builder. */
  ghost predicate Apart(done: set<StdDirectionUnit>, cs: seq<UnitBuilder>)
    reads cs
  {
    forall c, u :: c in cs && u in done ==> u !in c.Repr
  }

  /** Every unit of `done` has `p` as its parent. */
  ghost predicate LinkedTo(done: set<StdDirectionUnit>, p: StdDirectionUnit)
    reads done
  {
    forall u :: u in done ==> u.parent == p
  }

  /** The first `i` entries are present and their units lie in `done`. */
  ghost predicate Attached(es: seq<Option<(string, StdDirectionUnit)>>, i: nat, done: set<StdDirectionUnit>)
    requires i <= |es|
  {
    forall k :: 0 <= k < i ==> es[k].Some? && es[k].value.1 in done
  }

  /** Once the first pending builder `c` is built and its unit `u` attached
    * to `p`, the units attached before stay linked to `p`, and neither they
    * nor `u` lie in the footprint of a builder still pending. The
    * parameters are declared `new`, with their allocation in the earlier
    * state required explicitly. */
  twostate lemma AttachedApart(new c: UnitBuilder, new rest: seq<UnitBuilder>, new done: set<StdDirectionUnit>, new p: StdDirectionUnit, new u: StdDirectionUnit)
    requires old(allocated(c)) && old(allocated(rest)) && old(allocated(done)) && old(allocated(p)) && old(allocated(u))
    requires old(Apart(done, [c] + rest)) && old(LinkedTo(done, p))
    requires u in old(c.Repr) && u.parent == p && p.parent == old(p.parent)
    requires forall b :: b in rest ==> b.Repr == old(b.Repr) && b.Repr !! old(c.Repr)
    requires forall o :: o in done && o !in old(c.Repr) && o != p ==> o.parent == old(o.parent)
    ensures Apart(done + {u}, rest) && LinkedTo(done + {u}, p)
  {
    assert forall o :: o in done ==> o !in old(c.Repr) by {
      assert c in [c] + rest;
    }
    assert forall b, o :: b in rest && o in done ==> o !in old(b.Repr) by {
      assert forall b :: b in rest ==> b in [c] + rest;
    }
  }

  class UnitBuilder {
    const parent: UnitBuilder?
    var unit: StdDirectionUnit?
    var children: seq<UnitBuilder>
    ghost var Repr: set<object>

    /** The builder owns its unit and its pending children, which own theirs;
      * no two of them share anything, and a pending child's unit is still
      * a root. */
    ghost predicate Valid()
      reads this, Repr
      decreases Repr
    {
      && this in Repr
      && (unit != null ==> unit in Repr && unit.Valid())
      && (forall c :: c in children ==>
            && c in Repr && c.Repr <= Repr && this !in c.Repr
            && (unit != null ==> unit !in c.Repr)
            && c.Valid()
            && (c.unit != null ==> c.unit.parent == null))
      && Disjoint(children)
    }

    /** The pending children's entries are those of `es` from `i` on. */
    ghost predicate PendingFrom(es: seq<Option<(string, StdDirectionUnit)>>, i: nat)
      reads this, children, set c | c in children :: c.unit
    {
      i + |children| == |es| && forall k :: 0 <= k < |children| ==> EntryOf(children[k]) == es[i + k]
    }

    /** Part way through build(): the builder is valid, the pending children
      * are those of `es` from `i` on, the unit's children are `start` with
      * the first `i` entries put, and the units attached so far, all in
      * `done`, have this unit as parent and lie outside the pending
      * footprints. */
    ghost predicate Building(es: seq<Option<(string, StdDirectionUnit)>>, i: nat, start: LinkedMap<string, StdDirectionUnit>, done: set<StdDirectionUnit>)
      reads this, Repr, done, children, set c | c in children :: c.unit
    {
      && Valid() && unit != null && i <= |es| && start.Valid()
      && PendingFrom(es, i)
      && unit.children == PutEntries(start, es[..i])
      && Attached(es, i, done)
      && Apart(done, children) && LinkedTo(done, unit)
    }

    /** Some builder of the pending tree has no unit yet (the footprint
      * guards hold for a valid builder). */
    ghost predicate Incomplete()
      reads this, Repr
      decreases Repr
    {
      unit == null || exists c :: c in children && c in Repr && c.Repr < Repr && c.Incomplete()
    }

    constructor(parent: UnitBuilder?)
      ensures Valid() && fresh(Repr - {this})
      ensures this.parent == parent && unit == null && children == []
    {
      this.parent := parent;
      unit := null;
      children := [];
      Repr := {this};
    }

    /** new StdDirectionUnitBuilder(factory, root, parent) as written: a null parent is rejected. */
    static method Create(parent: UnitBuilder?) returns (r: Result<UnitBuilder, BuilderError>)
      ensures r.Err? <==> parent == null
      ensures r.Ok? ==> fresh(r.value) && r.value.Valid() && fresh(r.value.Repr)
      ensures r.Ok? ==> r.value.parent == parent && r.value.unit == null && r.value.children == []
    {
      if parent == null {
        return Err(IllegalArgument);
      }
      var b := new UnitBuilder(parent);
      return Ok(b);
    }

    /** The constructor as the top-level builders need it: no parent is allowed,
      * and parent() then reports NoSuchParent. */
    static method CreateCorrected(parent: UnitBuilder?) returns (b: UnitBuilder)
      ensures fresh(b) && b.Valid() && fresh(b.Repr)
      ensures b.parent == parent && b.unit == null && b.children == []
    {
      b := new UnitBuilder(parent);
    }

    /** parent() and and(): a builder without a parent has none to return. */
    function Parent(): (r: Result<UnitBuilder, BuilderError>)
      ensures r.Err? <==> parent == null
      ensures r.Ok? ==> r.value == parent
      ensures r.Err? ==> r.error == NoSuchParent
    {
      if parent == null then Err(NoSuchParent) else var p: UnitBuilder := parent; Ok(p)
    }

    /** name(): a blank name is rejected; the first call creates the unit, later ones rename it. */
    method Name(name: string) returns (r: Result<(), BuilderError>)
      requires Valid()
      modifies this, unit
      ensures Valid() && fresh(Repr - old(Repr))
      ensures r.Err? <==> StringUtils.AllWhitespace(name)
      ensures r.Err? ==> unit == old(unit) && (unit != null ==> unit.name == old(unit.name))
      ensures r.Ok? && old(unit) == null ==> fresh(unit) && unit.name == name && unit.description == ""
      ensures r.Ok? && old(unit) == null ==> unit.parent == null && unit.children == EmptyMap()
      ensures r.Ok? && old(unit) != null ==> unit == old(unit) && unit.name == name
      ensures r.Ok? && old(unit) != null ==> unit.parent == old(unit.parent) && unit.children == old(unit.children)
      ensures children == old(children)
    {
      var blank := StringUtils.IsBlank(name);
      if blank {
        return Err(IllegalArgument);
      }
      if unit == null {
        unit := new StdDirectionUnit(name, "");
        Repr := Repr + {unit};
      } else {
        var _ := unit.SetName(name);
      }
      return Ok(());
    }

    /** description(): needs the unit. */
    method Description(description: string) returns (r: Result<(), BuilderError>)
      requires Valid()
      modifies unit
      ensures Valid()
      ensures r.Err? <==> unit == null
      ensures r.Ok? ==> unit.description == description && unit.name == old(unit.name)
      ensures r.Ok? ==> unit.parent == old(unit.parent) && unit.children == old(unit.children)
    {
      if unit == null {
        return Err(IllegalArgument);
      }
      unit.SetDescription(description);
      return Ok(());
    }

    /** addChild(name): needs the unit and a non-blank name; the new child
      * builder goes last in the pending list and gets the name. */
    method AddChild(childName: string) returns (r: Result<UnitBuilder, BuilderError>)
      requires Valid()
      modifies this
      ensures Valid() && fresh(Repr - old(Repr))
      ensures r.Err? <==> unit == null || StringUtils.AllWhitespace(childName)
      ensures r.Err? ==> children == old(children)
      ensures r.Ok? ==> fresh(r.value) && r.value.parent == this && children == old(children) + [r.value]
      ensures r.Ok? ==> r.value.unit != null && r.value.unit.name == childName && r.value.unit.parent == null
      ensures unit == old(unit)
    {
      if unit == null {
        return Err(IllegalArgument);
      }
      var blank := StringUtils.IsBlank(childName);
      if blank {
        return Err(IllegalArgument);
      }
      var child := new UnitBuilder(this);
      var _ := child.Name(childName);
      children := children + [child];
      Repr := Repr + child.Repr;
      return Ok(child);
    }

    /** addChild(consumer): a child builder without a unit goes last in the
      * pending list; the consumer's calls on it are the caller's. */
    method AddChildBuilder() returns (r: Result<UnitBuilder, BuilderError>)
      requires Valid()
      modifies this
      ensures Valid() && fresh(Repr - old(Repr))
      ensures r.Err? <==> unit == null
      ensures r.Err? ==> children == old(children)
      ensures r.Ok? ==> fresh(r.value) && r.value.parent == this && r.value.unit == null
      ensures r.Ok? ==> children == old(children) + [r.value]
      ensures unit == old(unit)
    {
      if unit == null {
        return Err(IllegalArgument);
      }
      var child := new UnitBuilder(this);
      children := children + [child];
      Repr := Repr + child.Repr;
      return Ok(child);
    }

    /** removeChild(name): needs the unit and a non-blank name; drops every
      * pending child whose unit has that name. */
    method RemoveChild(childName: string) returns (r: Result<(), BuilderError>)
      requires Valid()
      modifies this
      ensures Valid() && Repr == old(Repr) && unit == old(unit)
      ensures unit == null || StringUtils.AllWhitespace(childName) ==> r == Err(IllegalArgument) && children == old(children)
      ensures unit != null && !StringUtils.AllWhitespace(childName) ==>
        children == RemoveNamed(old(children), old(NamesOf(children)), childName).0
        && (r.Ok? <==> RemoveNamed(old(children), old(NamesOf(children)), childName).1)
        && (r.Err? ==> r.error == NullPointer)
    {
      if unit == null || StringUtils.AllWhitespace(childName) {
        return Err(IllegalArgument);
      }
      ghost var names := NamesOf(children);
      var remaining, ok := ScanPending(children, childName);
      assert (remaining, ok) == RemoveNamed(old(children), old(NamesOf(children)), childName);
      RemoveNamedKeeps(children, names, childName);
      RemoveNamedDisjoint(children, names, childName);
      children := remaining;
      Narrowed();
      if !ok {
        return Err(NullPointer);
      }
      return Ok(());
    }

    /** Keeping some of the pending children, disjoint among themselves,
      * keeps the builder valid. */
    twostate lemma Narrowed()
      requires old(Valid()) && Repr == old(Repr) && unit == old(unit)
      requires unchanged(old(Repr) - {this})
      requires forall c :: c in children ==> c in old(children)
      requires Disjoint(children)
      ensures Valid()
    {
    }

    /** build(): needs the unit; each pending child is built, attached to the
      * unit under its name (a later child replacing an earlier one of the same
      * name in the map, while both keep this unit as their parent) and dropped
      * from the pending list. It fails when some builder of the pending tree
      * has no unit. */
    method Build() returns (r: Result<StdDirectionUnit, BuilderError>)
      requires Valid()
      modifies Repr
      decreases Repr, 1
      ensures r.Err? <==> old(Incomplete())
      ensures r.Ok? ==> Valid() && r.value == unit && unit == old(unit) && children == []
      ensures r.Ok? ==> r.value.name == old(r.value.name) && r.value.parent == old(r.value.parent)
      ensures r.Ok? ==> r.value.children == PutEntries(old(r.value.children), old(EntriesOf(children)))
      ensures r.Ok? ==> forall k :: 0 <= k < |old(children)| ==> old(children[k].unit) != null && old(children[k].unit).parent == unit
      ensures Repr == old(Repr)
    {
      if unit == null {
        return Err(IllegalArgument);
      }
      ghost var es := EntriesOf(children);
      ghost var done: set<StdDirectionUnit> := {};
      ghost var start := unit.children;
      var i := 0;
      while |children| > 0
        invariant Building(es, i, start, done)
        invariant unit == old(unit) && Repr == old(Repr)
        invariant unit.name == old(unit.name) && unit.parent == old(unit.parent)
        invariant Incomplete() == old(Incomplete())
        decreases |children|
      {
        var attached := BuildNext(es, i, start, done);
        if attached.Err? {
          return Err(attached.error);
        }
        done := done + {es[i].value.1};
        i := i + 1;
      }
      assert es[..i] == es;
      return Ok(unit);
    }

    /** A valid builder stays valid when its first pending child is dropped
      * while its unit stays valid and the rest are left alone. */
    twostate lemma Popped()
      requires old(Valid()) && |old(children)| > 0 && children == old(children[1..])
      requires Repr == old(Repr) && unit == old(unit) && (unit != null ==> unit.Valid())
      requires forall b :: b in children ==>
        b.Repr == old(b.Repr) && b.Valid() && b.unit == old(b.unit) && (b.unit != null ==> b.unit.parent == old(b.unit.parent))
      ensures Valid()
    {
      assert forall b :: b in children ==> b in old(children);
    }

    /** Building the first pending child `c` touches only its footprint: the
      * builder is still part way through build() as before, nothing is
      * incomplete that was not, and `c`'s unit is a root ready to attach. */
    twostate lemma ChildBuilt(new es: seq<Option<(string, StdDirectionUnit)>>, i: nat, new start: LinkedMap<string, StdDirectionUnit>, new done: set<StdDirectionUnit>, new c: UnitBuilder)
      requires old(allocated(es)) && old(allocated(start)) && old(allocated(done)) && old(allocated(c))
      requires old(Building(es, i, start, done)) && old(|children|) > 0 && c == old(children[0])
      requires c.Valid() && c.Repr == old(c.Repr) && c.unit == old(c.unit) && c.unit != null && c.children == [] && !old(c.Incomplete())
      requires c.unit.name == old(c.unit.name) && c.unit.parent == old(c.unit.parent)
      requires forall o :: o in old(Repr) && o !in old(c.Repr) ==> unchanged(o)
      requires forall o :: o in done && o !in old(c.Repr) ==> unchanged(o)
      ensures Building(es, i, start, done) && Incomplete() == old(Incomplete())
      ensures unit.children == old(unit.children) && unit.name == old(unit.name) && unit.parent == old(unit.parent)
      ensures c.unit.parent == null && c.unit != unit && es[i] == Some((c.unit.name, c.unit))
    {
      assert this in old(Repr) && this !in old(c.Repr);
      assert old(unit) in old(Repr) && old(unit) !in old(c.Repr);
      ghost var rest := children[1..];
      assert children == [c] + rest;
      assert forall b :: b in rest ==> b in old(children) && old(b.Valid()) && old(b.Repr) <= old(Repr) && old(b.Repr) !! old(c.Repr);
      assert forall o :: o in done ==> o !in old(c.Repr) by {
        assert c in old(children);
      }
      PendingUnchanged(rest);
      assert forall b :: b in children ==> b == c || b in rest;
      RestBuilt(es, i, start, done);
      assert old(EntryOf(children[0])) == es[i + 0];
    }

    /** ChildBuilt once the frame is known: this builder, its unit, the
      * attached units and the pending builders are as they were. */
    twostate lemma RestBuilt(new es: seq<Option<(string, StdDirectionUnit)>>, i: nat, new start: LinkedMap<string, StdDirectionUnit>, new done: set<StdDirectionUnit>)
      requires old(allocated(es)) && old(allocated(start)) && old(allocated(done))
      requires old(Building(es, i, start, done))
      requires children == old(children) && unit == old(unit) && Repr == old(Repr) && unchanged(unit)
      requires forall b :: b in children ==>
        && b.Repr == old(b.Repr) && b.Valid() && b.unit == old(b.unit)
        && (b.unit != null ==> b.unit.parent == old(b.unit.parent) && b.unit.name == old(b.unit.name))
        && b.Incomplete() == old(b.Incomplete())
      requires forall o :: o in done ==> o.parent == old(o.parent)
      ensures Building(es, i, start, done) && Incomplete() == old(Incomplete())
    {
    }

    /** Attaching the unit `u` of the built child `c` and dropping `c` leaves
      * the builder part way through build() one entry further, with `u`
      * among the attached units. */
    twostate lemma ChildAttached(new es: seq<Option<(string, StdDirectionUnit)>>, i: nat, new start: LinkedMap<string, StdDirectionUnit>, new done: set<StdDirectionUnit>,
                                 new c: UnitBuilder, new u: StdDirectionUnit)
      requires old(allocated(es)) && old(allocated(start)) && old(allocated(done)) && old(allocated(c)) && old(allocated(u))
      requires old(Building(es, i, start, done)) && old(|children|) > 0 && c == old(children[0]) && children == old(children[1..])
      requires old(!c.Incomplete()) && u == old(c.unit) && old(u.parent) == null && es[i] == Some((old(u.name), u))
      requires Repr == old(Repr) && unit == old(unit) && unit.Valid()
      requires u.parent == unit && unit.parent == old(unit.parent) && unit.children == old(unit.children).Put(old(u.name), u)
      requires forall o :: o in old(Repr) && o != this && o != unit && o != u ==> unchanged(o)
      requires forall o :: o in done && o != unit && o != u ==> unchanged(o)
      ensures Building(es, i + 1, start, done + {u}) && Incomplete() == old(Incomplete())
    {
      ghost var rest := children;
      assert old(children) == [c] + rest;
      assert c in old(children) && old(c.Valid()) && u in old(c.Repr);
      assert forall b :: b in rest ==> b in old(children) && old(b.Valid()) && old(b.Repr) !! old(c.Repr);
      assert forall b :: b in rest ==> unchanged(old(b.Repr));
      assert forall o :: o in done && o !in old(c.Repr) && o != unit ==> o.parent == old(o.parent);
      PendingUnchanged(rest);
      RestAttached(es, i, start, done, c, u);
    }

    /** ChildAttached once the frame is known: the pending builders left are
      * as they were. */
    twostate lemma RestAttached(new es: seq<Option<(string, StdDirectionUnit)>>, i: nat, new start: LinkedMap<string, StdDirectionUnit>, new done: set<StdDirectionUnit>,
                                new c: UnitBuilder, new u: StdDirectionUnit)
      requires old(allocated(es)) && old(allocated(start)) && old(allocated(done)) && old(allocated(c)) && old(allocated(u))
      requires old(Building(es, i, start, done)) && old(|children|) > 0 && c == old(children[0]) && children == old(children[1..])
      requires old(!c.Incomplete()) && u == old(c.unit) && old(u.parent) == null && es[i] == Some((old(u.name), u))
      requires Repr == old(Repr) && unit == old(unit) && unit.Valid()
      requires u.parent == unit && unit.parent == old(unit.parent) && unit.children == old(unit.children).Put(old(u.name), u)
      requires forall b :: b in children ==>
        && b.Repr == old(b.Repr) && b.Valid() && b.unit == old(b.unit)
        && (b.unit != null ==> b.unit.parent == old(b.unit.parent) && b.unit.name == old(b.unit.name))
        && b.Incomplete() == old(b.Incomplete())
      requires forall b :: b in children ==> b.Repr !! old(c.Repr)
      requires forall o :: o in done && o !in old(c.Repr) && o != unit ==> o.parent == old(o.parent)
      ensures Building(es, i + 1, start, done + {u}) && Incomplete() == old(Incomplete())
    {
      ghost var rest := children;
      assert old(children) == [c] + rest;
      assert c in old(children) && old(c.Valid()) && u in old(c.Repr);
      Popped();
      AttachedApart(c, rest, done, unit, u);
      PutEntriesStep(start, es, i);
      assert forall k :: 0 <= k < |children| ==> children[k] == old(children[k + 1]);
    }

    /** One round of build()'s loop: the first pending child is built, its
      * unit attached to this builder's unit, and the child dropped from the
      * pending list. */
    method BuildNext(ghost es: seq<Option<(string, StdDirectionUnit)>>, ghost i: nat, ghost start: LinkedMap<string, StdDirectionUnit>, ghost done: set<StdDirectionUnit>) returns (r: Result<(), BuilderError>)
      requires Building(es, i, start, done) && |children| > 0
      modifies this, unit, children[0].Repr
      decreases Repr, 0
      ensures Repr == old(Repr) && unit == old(unit)
      ensures r.Err? <==> old(children[0].Incomplete())
      ensures r.Ok? ==> children == old(children[1..]) && i < |es| && es[i].Some?
      ensures r.Ok? ==> unit.name == old(unit.name) && unit.parent == old(unit.parent)
      ensures r.Ok? ==> old(children[0].unit) == es[i].value.1 && es[i].value.1.parent == unit
      ensures r.Ok? ==> unit.children == old(unit.children).Put(es[i].value.0, es[i].value.1)
      ensures r.Ok? ==> Incomplete() == old(Incomplete())
      ensures r.Ok? ==> Building(es, i + 1, start, done + {es[i].value.1})
    {
      var c := children[0];
      var built := c.Build();
      if built.Err? {
        return Err(built.error);
      }
      ChildBuilt(es, i, start, done, c);
      label Built:
      var attached := unit.AddChild(built.value);
      children := children[1..];
      ChildAttached@Built(es, i, start, done, c, built.value);
      return Ok(());
    }
  }
}
