/**
 * StdDirectionUnit: one word of a direction. Units link into a tree through a
 * parent reference and a LinkedHashMap of children keyed by name. The
 * callbacks a unit carries (interceptor, acceptor, executor, completer,
 * example-list provider) are used by the search in module Directions, which
 * runs over a snapshot of the tree.
 */
module DirectionUnits {
  import opened Wrappers
  import opened LinkedMaps
  import StringUtils

  datatype UnitError =
    | InvalidArgument   // AssertUtils: a blank name
    | IllegalState      // setParent on a unit that already has a parent

  /** The units from `u`'s parent up to the root, each the parent of the one before. */
  ghost predicate ParentChain(u: StdDirectionUnit, chain: seq<StdDirectionUnit>)
    reads u, chain
  {
    (|chain| == 0 ==> u.parent == null)
    && (|chain| > 0 ==>
          u.parent == chain[0]
          && (forall k :: 0 <= k < |chain| - 1 ==> chain[k].parent == chain[k + 1])
          && chain[|chain| - 1].parent == null)
  }

  class StdDirectionUnit {
    var name: string
    var description: string
    var parent: StdDirectionUnit?
    var children: LinkedMap<string, StdDirectionUnit>

    ghost predicate Valid()
      reads this
    {
      children.Valid() && !StringUtils.AllWhitespace(name)
    }

    constructor(name: string, description: string)
      requires !StringUtils.AllWhitespace(name)
      ensures Valid()
      ensures this.name == name && this.description == description
      ensures parent == null && children == EmptyMap()
    {
      this.name := name;
      this.description := description;
      parent := null;
      children := EmptyMap();
    }

    /** new StdDirectionUnit(name, description): a blank name is rejected. */
    static method Create(name: string, description: string) returns (r: Result<StdDirectionUnit, UnitError>)
      ensures r.Err? <==> StringUtils.AllWhitespace(name)
      ensures r.Ok? ==> fresh(r.value) && r.value.Valid() && r.value.name == name
      ensures r.Ok? ==> r.value.description == description && r.value.parent == null && r.value.children == EmptyMap()
    {
      var blank := StringUtils.IsBlank(name);
      if blank {
        return Err(InvalidArgument);
      }
      var u := new StdDirectionUnit(name, description);
      return Ok(u);
    }

    method SetName(name: string) returns (r: Result<(), UnitError>)
      requires Valid()
      modifies this
      ensures Valid()
      ensures r.Err? <==> StringUtils.AllWhitespace(name)
      ensures this.name == if r.Ok? then name else old(this.name)
      ensures description == old(description) && parent == old(parent) && children == old(children)
    {
      var blank := StringUtils.IsBlank(name);
      if blank {
        return Err(InvalidArgument);
      }
      this.name := name;
      return Ok(());
    }

    method SetDescription(description: string)
      modifies this
      ensures this.description == description
      ensures name == old(name) && parent == old(parent) && children == old(children)
    {
      this.description := description;
    }

    predicate IsRoot()
      reads this
    {
      parent == null
    }

    /** setParent: clearing the parent is always allowed, setting one only on a root. */
    method SetParent(unit: StdDirectionUnit?) returns (r: Result<(), UnitError>)
      modifies this
      ensures r.Ok? <==> unit == null || old(parent) == null
      ensures parent == if r.Ok? then unit else old(parent)
      ensures name == old(name) && description == old(description) && children == old(children)
    {
      if unit == null || IsRoot() {
        parent := unit;
        return Ok(());
      }
      return Err(IllegalState);
    }

    /** getChildren: the children in the order their names were first added. */
    function GetChildren(): (cs: seq<StdDirectionUnit>)
      requires Valid()
      reads this
      ensures |cs| == |children.keys|
      ensures forall i :: 0 <= i < |cs| ==> cs[i] == children.entries[children.keys[i]]
    {
      children.Values()
    }

    /** getDepth: the number of ancestors below the root, so 0 for a root and
      * for a child of a root. The source walks the parent references, which
      * only ends when they reach a root: `chain` is that walk. */
    method GetDepth(ghost chain: seq<StdDirectionUnit>) returns (depth: nat)
      requires ParentChain(this, chain)
      ensures depth == if |chain| == 0 then 0 else |chain| - 1
    {
      depth := 0;
      var p := parent;
      ghost var k := 0;
      while p != null
        invariant 0 <= k <= |chain|
        invariant depth == k
        invariant p == if k < |chain| then chain[k] else null
        invariant p == null ==> k == 0 && |chain| == 0
        decreases |chain| - k
      {
        if k < |chain| - 1 {
          assert chain[k].parent == chain[k + 1];
        }
        if p.IsRoot() {
          return;
        }
        depth := depth + 1;
        p := p.parent;
        k := k + 1;
      }
    }

    /** addChild: the child takes this unit as its parent and is keyed by its
      * name, replacing a child of the same name. A child that already has a
      * parent is refused and nothing changes. */
    method AddChild(child: StdDirectionUnit) returns (r: Result<(), UnitError>)
      requires Valid()
      modifies this, child
      ensures Valid()
      ensures r.Ok? <==> old(child.parent) == null
      ensures r.Ok? ==> child.parent == this && children == old(children).Put(old(child.name), child)
      ensures r.Err? ==> child.parent == old(child.parent) && children == old(children)
      ensures name == old(name) && description == old(description)
      ensures child != this ==> parent == old(parent)
      ensures child.name == old(child.name)
    {
      r := child.SetParent(this);
      if r.Ok? {
        children := children.Put(child.name, child);
      }
    }

    /** removeChild: the child under `childName` leaves the map and loses its
      * parent; an absent name changes nothing. */
    method RemoveChild(childName: string)
      requires Valid()
      modifies this, children.entries.Values
      ensures Valid()
      ensures children == old(children).Remove(childName)
      ensures childName in old(children.entries) ==> old(children.entries[childName]).parent == null
      ensures childName !in old(children.entries) ==> parent == old(parent)
      ensures name == old(name) && description == old(description)
      ensures forall c :: c in old(children.entries.Values) && (childName !in old(children.entries) || c != old(children.entries[childName])) ==> c.parent == old(c.parent)
    {
      var removed := children.Get(childName);
      children := children.Remove(childName);
      if removed.Some? {
        var _ := removed.value.SetParent(null);
      }
    }
  }
}
