/** Scalar cells: variables, frame slots and array elements that share one value. */
module ScalarCells {
  import opened Values

  /** What a place holds: a value, or a cell it shares with other places. */
  datatype Held = Plain(value: Value) | Ref(cell: Cell)

  class Cell {
    var held: Held

    constructor (value: Value)
      ensures held == Plain(value)
    {
      held := Plain(value);
    }
  }

  /** The scopes are numbered from the innermost: local, closure, global. */
  datatype Place = Variable(level: nat, name: string) | Slot(index: nat) | Element(index: nat)

  const GLOBAL := 2

  class Store {
    var places: map<Place, Held>
    ghost var cells: set<Cell>

    /** Every cell in use is known, and no cell holds another cell. */
    ghost predicate Valid()
      reads this, cells
    {
      && (forall p | p in places && places[p].Ref? :: places[p].cell in cells)
      && (forall c | c in cells :: c.held.Plain?)
    }

    constructor ()
      ensures Valid() && places == map[] && cells == {}
    {
      places := map[];
      cells := {};
    }

    ghost function HeldAt(p: Place): Held
      reads this
    {
      if p in places then places[p] else Plain(Null)
    }

    /** The value seen through a place. */
    ghost function Look(p: Place): Value
      reads this, cells
      requires Valid()
    {
      ValueOf(HeldAt(p))
    }

    ghost function ValueOf(h: Held): Value
      reads if h.Ref? then {h.cell} else {}
      requires h.Ref? ==> h.cell.held.Plain?
    {
      if h.Plain? then h.value else h.cell.held.value
    }

    /** Two places share a cell. */
    ghost predicate Aliases(p: Place, q: Place)
      reads this
    {
      p in places && q in places && places[p].Ref? && places[q] == places[p]
    }

    /** A value or a known cell. */
    ghost predicate Known(h: Held)
      reads this
    {
      h.Ref? ==> h.cell in cells
    }

    /** dereference_value: since no cell holds a cell, the loop ends after one step. */
    method Dereference(h: Held) returns (v: Value)
      requires Valid() && Known(h)
      ensures v == ValueOf(h)
    {
      var current := h;
      while current.Ref?
        invariant current == h || (h.Ref? && current == h.cell.held)
        decreases if current.Ref? then 1 else 0
      {
        current := current.cell.held;
      }
      v := current.value;
    }

    /** watched_cell_assign. */
    method AssignCell(c: Cell, h: Held)
      requires Valid() && c in cells && Known(h)
      modifies c
      ensures Valid() && c.held == Plain(old(ValueOf(h)))
    {
      var v := Dereference(h);
      c.held := Plain(v);
    }

    /** assign_binding with a plain value: seen through the place and all its aliases, and
        through no other place. */
    method AssignValue(p: Place, v: Value)
      requires Valid()
      modifies this`places, cells
      ensures Valid()
      ensures forall q :: Look(q) == if q == p || old(Aliases(p, q)) then v else old(Look(q))
      ensures forall q, r :: Aliases(q, r) <==> old(Aliases(q, r))
      ensures places.Keys == old(places.Keys) + {p}
    {
      if p in places && places[p].Ref? {
        AssignCell(places[p].cell, Plain(v));
      } else {
        places := places[p := Plain(v)];
      }
    }

    /** assign_binding with a cell: the place now shares that cell; no value anywhere else
        changes. */
    method BindReference(p: Place, c: Cell)
      requires Valid() && c in cells
      modifies this`places
      ensures Valid() && HeldAt(p) == Ref(c) && Look(p) == c.held.value
      ensures forall q | q != p :: HeldAt(q) == old(HeldAt(q)) && Look(q) == old(Look(q))
    {
      places := places[p := Ref(c)];
    }

    /** scoped_variable_reference and slot_reference: the place gets a cell of its own if it
        has none; no value changes. */
    method Reference(p: Place) returns (c: Cell)
      requires Valid()
      modifies this`places, this`cells
      ensures Valid() && old(cells) <= cells && c in cells && HeldAt(p) == Ref(c)
      ensures old(HeldAt(p)).Ref? ==> c == old(HeldAt(p)).cell
      ensures old(HeldAt(p)).Plain? ==> fresh(c)
      ensures forall q :: Look(q) == old(Look(q))
      ensures forall q | q != p :: HeldAt(q) == old(HeldAt(q))
    {
      if p in places && places[p].Ref? {
        return places[p].cell;
      }
      var v := if p in places then places[p].value else Null;
      c := new Cell(v);
      cells := cells + {c};
      places := places[p := Ref(c)];
    }

    /** slot_assign: a slot without a cell takes what it is given, a cell included; a slot
        with a cell takes the value. */
    method AssignSlot(p: Place, h: Held)
      requires Valid() && Known(h)
      modifies this`places, cells
      ensures Valid()
      ensures forall q :: Look(q) == if q == p || old(Aliases(p, q)) then old(ValueOf(h)) else old(Look(q))
      ensures old(HeldAt(p)).Ref? ==> places == old(places)
      ensures old(HeldAt(p)).Plain? ==> places == old(places)[p := h]
    {
      if p in places && places[p].Ref? {
        AssignCell(places[p].cell, h);
      } else {
        places := places[p := h];
      }
    }

    /** array_set_internal on an element: one look into a cell is enough. */
    method SetElement(p: Place, h: Held)
      requires Valid() && Known(h)
      modifies this`places, cells
      ensures Valid()
      ensures forall q :: Look(q) == if q == p || old(Aliases(p, q)) then old(ValueOf(h)) else old(Look(q))
    {
      if p in places && places[p].Ref? {
        var given := h;
        if given.Ref? {
          given := given.cell.held;
        }
        places[p].cell.held := given;
      } else {
        places := places[p := h];
      }
    }

    // ----- scoped variables -----

    /** The level is that of the innermost scope that has the name, or the global one. */
    predicate Innermost(level: nat, name: string)
      reads this
    {
      && level <= GLOBAL && (forall k: nat | k < level :: Variable(k, name) !in places)
      && (level < GLOBAL ==> Variable(level, name) in places)
    }

    /** scoped_variable_level. */
    function LevelOf(name: string): (level: nat)
      reads this
      ensures Innermost(level, name)
    {
      if Variable(0, name) in places then 0 else if Variable(1, name) in places then 1 else GLOBAL
    }

    /** scoped_variable_set: the variable of the innermost scope is written, with all its
        aliases, and no other place. */
    method SetVariable(name: string, v: Value)
      requires Valid()
      modifies this`places, cells
      ensures Valid()
      ensures forall level | old(Innermost(level, name)) ::
                Innermost(level, name) && Variable(level, name) in places && Look(Variable(level, name)) == v
                && forall q :: Look(q) ==
                     if q == Variable(level, name) || old(Aliases(Variable(level, name), q)) then v else old(Look(q))
    {
      var level := LevelOf(name);
      OneInnermost(name, level);
      AssignValue(Variable(level, name), v);
    }

    /** There is one such level. */
    lemma OneInnermost(name: string, level: nat)
      requires Innermost(level, name)
      ensures forall other | Innermost(other, name) :: other == level
    {
    }

    /** scoped_variable_get: the value written last through any alias. */
    method GetVariable(name: string) returns (v: Option<Value>)
      requires Valid()
      ensures v.None? <==> forall k: nat | k <= GLOBAL :: Variable(k, name) !in places
      ensures forall level | Innermost(level, name) && Variable(level, name) in places :: v == Some(Look(Variable(level, name)))
    {
      var level := LevelOf(name);
      OneInnermost(name, level);
      var p := Variable(level, name);
      if p !in places {
        return None;
      }
      var found := Dereference(places[p]);
      v := Some(found);
    }

    /** Passing a variable by reference: the parameter's place becomes an alias, so that a
        write through either is seen through both. */
    method PassByReference(name: string, parameter: Place)
      requires Valid() && parameter != Variable(LevelOf(name), name)
      modifies this`places, this`cells
      ensures Valid() && old(Look(Variable(LevelOf(name), name))) == Look(parameter)
      ensures Aliases(Variable(old(LevelOf(name)), name), parameter)
      ensures forall q | q != parameter :: Look(q) == old(Look(q))
    {
      var p := Variable(LevelOf(name), name);
      var c := Reference(p);
      BindReference(parameter, c);
    }
  }
}
