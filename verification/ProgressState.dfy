/** What a provider publishes while it works: deep copies in, deep copies out.

    A slice of pointers is an array of nullable objects here, whose optional fields are heap
    cells of their own, so that sharing is visible. */
module ProgressState {
  import opened Decimal
  import opened ComparisonSlots

  class Cell<T> {
    var value: T

    constructor (value: T)
      ensures this.value == value
    {
      this.value := value;
    }
  }

  class MarketObject<ID> {
    var id: ID
    var priceUSD: Cell?<string>
    var change24HPercent: Cell?<real>

    constructor (id: ID, priceUSD: Cell?<string>, change24HPercent: Cell?<real>)
      ensures this.id == id && this.priceUSD == priceUSD && this.change24HPercent == change24HPercent
    {
      this.id, this.priceUSD, this.change24HPercent := id, priceUSD, change24HPercent;
    }

    /** The object and its cells are among these. */
    ghost predicate Within(objects: set<object>)
      reads this
    {
      && this in objects && (priceUSD != null ==> priceUSD in objects)
      && (change24HPercent != null ==> change24HPercent in objects)
    }

    ghost function Shown(): Market<ID>
      reads this, priceUSD, change24HPercent
    {
      Market(id, Read(priceUSD), Read(change24HPercent))
    }

    method Clone() returns (copy: MarketObject<ID>, ghost objects: set<object>)
      ensures fresh(objects) && copy.Within(objects) && copy.Shown() == Shown()
    {
      var price := CloneCell(priceUSD);
      var change := CloneCell(change24HPercent);
      copy := new MarketObject(id, price, change);
      objects := {copy} + (if price == null then {} else {price}) + (if change == null then {} else {change});
    }
  }

  function Read<T>(cell: Cell?<T>): Option<T>
    reads cell
  {
    if cell == null then None else Some(cell.value)
  }

  method CloneCell<T>(cell: Cell?<T>) returns (copy: Cell?<T>)
    ensures Read(copy) == Read(cell) && (copy != null ==> fresh(copy))
  {
    if cell == null {
      return null;
    }
    copy := new Cell(cell.value);
  }

  /** A slice of market pointers, with everything reachable from it. */
  class Slice<ID> {
    const slots: array<MarketObject?<ID>>
    ghost var Repr: set<object>

    ghost predicate Valid()
      reads this, Repr
    {
      && this in Repr && slots in Repr
      && forall i | 0 <= i < slots.Length && slots[i] != null :: slots[i] in Repr && slots[i].Within(Repr)
    }

    ghost function Slot(i: nat): Option<Market<ID>>
      requires Valid() && i < slots.Length
      reads this, Repr
    {
      if slots[i] == null then None else Some(slots[i].Shown())
    }

    /** What the first `n` slots show. */
    ghost function Column(n: nat): (column: seq<Option<Market<ID>>>)
      requires Valid() && n <= slots.Length
      reads this, Repr
      ensures |column| == n && forall i | 0 <= i < n :: column[i] == Slot(i)
    {
      if n == 0 then [] else Column(n - 1) + [Slot(n - 1)]
    }

    ghost function View(): (column: seq<Option<Market<ID>>>)
      requires Valid()
      reads this, Repr
      ensures |column| == slots.Length && forall i | 0 <= i < slots.Length :: column[i] == Slot(i)
    {
      Column(slots.Length)
    }

    /** A slice of nils. */
    constructor (length: nat)
      ensures Valid() && fresh(Repr) && slots.Length == length
      ensures forall i | 0 <= i < length :: slots[i] == null
    {
      slots := new MarketObject?<ID>[length](_ => null);
      new;
      Repr := {this, slots};
    }

    /** Shows one record at each of the indexes, in an object of its own each time. */
    method Show(indexes: seq<nat>, shown: Market<ID>)
      requires Valid() && forall j | 0 <= j < |indexes| :: indexes[j] < slots.Length
      modifies this, slots
      ensures Valid() && fresh(Repr - old(Repr))
      ensures forall i | 0 <= i < slots.Length :: View()[i] == if i in indexes then Some(shown) else old(View()[i])
    {
      for n := 0 to |indexes|
        invariant Valid() && fresh(Repr - old(Repr))
        invariant forall i: nat | i < slots.Length :: Slot(i) == if i in indexes[..n] then Some(shown) else old(Slot(i))
      {
        assert indexes[..n + 1] == indexes[..n] + [indexes[n]];
        var m, objects := Render(shown);
        slots[indexes[n]] := m;
        Repr := Repr + objects;
      }
      assert indexes[..|indexes|] == indexes;
    }

    static method Render(shown: Market<ID>) returns (m: MarketObject<ID>, ghost objects: set<object>)
      ensures fresh(objects) && m.Within(objects) && m.Shown() == shown
    {
      var price: Cell?<string>, change: Cell?<real> := null, null;
      if shown.priceUSD.Some? {
        price := new Cell(shown.priceUSD.value);
      }
      if shown.change24HPercent.Some? {
        change := new Cell(shown.change24HPercent.value);
      }
      m := new MarketObject(shown.id, price, change);
      objects := {m} + (if price == null then {} else {price}) + (if change == null then {} else {change});
    }

    /** Shows a whole column, every slot in an object of its own. */
    method Fill(shown: seq<Option<Market<ID>>>)
      requires Valid() && |shown| == slots.Length
      modifies this, slots
      ensures Valid() && fresh(Repr - old(Repr)) && View() == shown
    {
      for i := 0 to |shown|
        invariant Valid() && fresh(Repr - old(Repr))
        invariant forall j: nat | j < i :: Slot(j) == shown[j]
      {
        if shown[i].None? {
          slots[i] := null;
        } else {
          var m, objects := Render(shown[i].value);
          slots[i] := m;
          Repr := Repr + objects;
        }
      }
    }

    /** A deep copy: it shows the same and shares nothing with what existed before. */
    method Clone() returns (copy: Slice<ID>)
      requires Valid()
      ensures copy.Valid() && fresh(copy.Repr) && copy.View() == View()
    {
      hide Column, View, MarketObject.Shown;
      copy := new Slice<ID>(slots.Length);
      for i := 0 to slots.Length
        invariant copy.Valid() && fresh(copy.Repr) && copy.slots.Length == slots.Length
        invariant forall j: nat | j < i :: copy.Slot(j) == Slot(j)
        invariant forall j: nat | i <= j < slots.Length :: copy.slots[j] == null
      {
        if slots[i] != null {
          ghost var objects;
          copy.slots[i], objects := slots[i].Clone();
          copy.Repr := copy.Repr + objects;
        }
      }
    }
  }
  ghost function ShownBy<ID>(slice: Slice?<ID>): Option<seq<Option<Market<ID>>>>
    requires slice != null ==> slice.Valid()
    reads slice, if slice == null then {} else slice.Repr
  {
    if slice == null then None else Some(slice.View())
  }

  method CloneSlice<ID>(slice: Slice?<ID>) returns (copy: Slice?<ID>)
    requires slice != null ==> slice.Valid()
    ensures copy != null ==> copy.Valid() && fresh(copy.Repr)
    ensures ShownBy(copy) == ShownBy(slice)
  {
    if slice == null {
      return null;
    }
    copy := slice.Clone();
  }

  /** The snapshot one provider goroutine replaces and the response goroutine reads. */
  class Progress<ID> {
    var values: Slice?<ID>
    ghost var Repr: set<object>

    ghost predicate Valid()
      reads this, Repr
    {
      this in Repr && (values != null ==>
                       values in Repr && values.Repr <= Repr && this !in values.Repr && values.Valid())
    }

    ghost function Shows(): Option<seq<Option<Market<ID>>>>
      requires Valid()
      reads this, Repr
    {
      ShownBy(values)
    }

    constructor ()
      ensures Valid() && fresh(Repr) && Shows() == None
    {
      values := null;
      Repr := {this};
    }

    /** Replaces the snapshot by a copy.  No object that existed before is written, so earlier
        snapshots still show what they did, and the new one shares nothing with `published`. */
    method Publish(published: Slice?<ID>)
      requires Valid() && (published != null ==> published.Valid())
      modifies this
      ensures Valid() && fresh(Repr - {this}) && Shows() == old(ShownBy(published))
    {
      values := CloneSlice(published);
      Repr := {this} + if values == null then {} else values.Repr;
    }

    /** A copy of the snapshot that shares nothing with it. */
    method Snapshot() returns (copy: Slice?<ID>)
      requires Valid()
      ensures copy != null ==> copy.Valid() && fresh(copy.Repr)
      ensures ShownBy(copy) == Shows()
    {
      copy := CloneSlice(values);
    }
  }

  /** One provider's side of a comparison: the slice it fills, the state it publishes to, and the
      column the response took, if it did. */
  class Exchange<ID> {
    const result: Slice<ID>
    const progress: Progress<ID>
    var column: Slice?<ID>

    /** The three share nothing. */
    ghost predicate Valid()
      reads this, result, result.Repr, progress, progress.Repr, column, if column == null then {} else column.Repr
    {
      && result.Valid() && progress.Valid() && (column != null ==> column.Valid())
      && this !in result.Repr && this !in progress.Repr && result.Repr !! progress.Repr
      && (column != null ==> this !in column.Repr && column.Repr !! result.Repr && column.Repr !! progress.Repr)
    }

    constructor (length: nat)
      ensures Valid() && fresh(Objects()) && column == null
      ensures progress.Shows() == None && result.slots.Length == length
      ensures forall i | 0 <= i < length :: result.View()[i] == None
    {
      result := new Slice<ID>(length);
      progress := new Progress<ID>();
      column := null;
    }

    /** Everything this side consists of. */
    ghost function Objects(): set<object>
      reads this, result, progress, column
    {
      {this} + result.Repr + progress.Repr + if column == null then {} else column.Repr
    }

    /** The provider shows one record at each of its indexes; nothing else changes, neither the
        other slots nor what was published nor what the response holds. */
    method Apply(indexes: seq<nat>, shown: Market<ID>)
      requires Valid() && forall j | 0 <= j < |indexes| :: indexes[j] < result.slots.Length
      modifies result, result.slots
      ensures Valid() && fresh(Objects() - old(Objects()))
      ensures forall i | 0 <= i < result.slots.Length ::
                result.View()[i] == if i in indexes then Some(shown) else old(result.View()[i])
      ensures progress.Shows() == old(progress.Shows()) && column == old(column)
      ensures ShownBy(column) == old(ShownBy(column))
    {
      result.Show(indexes, shown);
    }

    /** The provider publishes its result as it stands; the response's column stays. */
    method Publish()
      requires Valid()
      modifies progress
      ensures Valid() && fresh(Objects() - old(Objects()))
      ensures progress.Shows() == Some(result.View()) && result.View() == old(result.View())
      ensures column == old(column) && ShownBy(column) == old(ShownBy(column))
    {
      progress.Publish(result);
    }

    /** The response takes its column: what was last published, now its own. */
    method Respond()
      requires Valid()
      modifies this`column
      ensures Valid() && fresh(Objects() - old(Objects()))
      ensures ShownBy(column) == progress.Shows() == old(progress.Shows()) && result.View() == old(result.View())
    {
      column := progress.Snapshot();
    }

    /** The provider rewrites its whole slice; nothing that was published or read changes. */
    method Fill(shown: seq<Option<Market<ID>>>)
      requires Valid() && |shown| == result.slots.Length
      modifies result, result.slots
      ensures Valid() && fresh(Objects() - old(Objects()))
      ensures result.View() == shown
      ensures progress.Shows() == old(progress.Shows()) && column == old(column)
      ensures ShownBy(column) == old(ShownBy(column))
    {
      result.Fill(shown);
    }
  }
}
