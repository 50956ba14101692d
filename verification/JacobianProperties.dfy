/**
The conversion of a KDL Jacobian, a matrix with six rows, to a property bag and back.
*/
module JacobianProperties {

  /** The value of a property, and whether its type is known so that it can be read. */
  datatype Property = Property(value: real, ready: bool)

  const JACOBIAN_TYPE := "KDL.Jacobian"

  class PropertyBag {
    var kind: string
    var items: seq<Property>

    constructor ()
      ensures kind == "" && items == []
    {
      kind, items := "", [];
    }
  }

  // ---------------------------------------------------------------------------------------------
  // Positions in the bag

  /** The position of element (i, j) in a bag that lists rows of n elements one after the other. */
  function Position(n: nat, i: nat, j: nat): nat {
    if i == 0 then j else n + Position(n, i - 1, j)
  }

  lemma {:induction false} PositionIsProduct(n: nat, i: nat, j: nat)
    ensures Position(n, i, j) == n * i + j
    decreases i
  {
    if i == 0 {
    } else {
      PositionIsProduct(n, i - 1, j);
    }
  }

  lemma {:induction false} PositionInRow(n: nat, i: nat, j: nat)
    ensures Position(n, i, j) == Position(n, i, 0) + j
    ensures Position(n, i, n) == Position(n, i + 1, 0)
    decreases i
  {
    if i == 0 {
    } else {
      PositionInRow(n, i - 1, j);
    }
  }

  lemma {:induction false} PositionInBounds(n: nat, rows: nat, i: nat, j: nat)
    requires i < rows && j < n
    ensures Position(n, i, j) < Position(n, rows, 0)
    decreases rows
  {
    PositionInRow(n, i, j);
    PositionInRow(n, i, 0);
    if i + 1 < rows { PositionInBounds(n, rows - 1, i, j); }
  }

  /** Every position below the end belongs to exactly one element of the matrix. */
  lemma {:induction false} PositionsCoverBag(n: nat, rows: nat, k: nat) returns (i: nat, j: nat)
    requires k < Position(n, rows, 0)
    ensures i < rows && j < n && Position(n, i, j) == k
    ensures forall r: nat, c: nat | c < n && Position(n, r, c) == k :: r == i && c == j
    decreases rows
  {
    if k < Position(n, rows - 1, 0) {
      i, j := PositionsCoverBag(n, rows - 1, k);
    } else {
      i, j := rows - 1, k - Position(n, rows - 1, 0);
      PositionInRow(n, i, j);
      forall r: nat, c: nat | c < n && Position(n, r, c) == k ensures r == i && c == j {
        PositionIsUnique(n, r, c, i, j);
      }
    }
  }

  lemma {:induction false} PositionIsUnique(n: nat, i: nat, j: nat, i': nat, j': nat)
    requires j < n && j' < n && Position(n, i, j) == Position(n, i', j')
    ensures i == i' && j == j'
    decreases i
  {
    if i == 0 || i' == 0 {
    } else {
      PositionIsUnique(n, i - 1, j, i' - 1, j');
    }
  }

  // ---------------------------------------------------------------------------------------------
  // The two conversions

  /** items lists the first r rows of data and the first c elements of the next row. */
  ghost predicate Lists(items: seq<Property>, data: array2<real>, r: nat, c: nat)
    requires r <= data.Length0 && c <= data.Length1 && (r == data.Length0 ==> c == 0)
    reads data
  {
    && |items| == Position(data.Length1, r, c)
    && (forall i: nat, j: nat | (i < r && j < data.Length1) || (i == r && j < c) ::
          var k := Position(data.Length1, i, j); k < |items| && items[k] == Property(data[i, j], true))
  }

  lemma ListsOneMore(items: seq<Property>, data: array2<real>, r: nat, c: nat)
    requires r < data.Length0 && c < data.Length1 && Lists(items, data, r, c)
    ensures Lists(items + [Property(data[r, c], true)], data, r, c + 1)
  {
    PositionInRow(data.Length1, r, c);
    PositionInRow(data.Length1, r, c + 1);
  }

  lemma ListsRow(items: seq<Property>, data: array2<real>, r: nat)
    requires r < data.Length0 && Lists(items, data, r, data.Length1)
    ensures Lists(items, data, r + 1, 0)
  {
    PositionInRow(data.Length1, r, 0);
  }

  /** decomposeProperty appends the elements row by row. */
  method Decompose(data: array2<real>, bag: PropertyBag)
    modifies bag
    ensures bag.kind == "KDL.Jacobian"
    ensures old(bag.items) <= bag.items && Lists(bag.items[|old(bag.items)|..], data, data.Length0, 0)
  {
    bag.kind := JACOBIAN_TYPE;
    ghost var before := bag.items;
    ghost var added: seq<Property> := [];
    assert bag.items == before + added;
    for i := 0 to data.Length0
      invariant bag.kind == JACOBIAN_TYPE && bag.items == before + added && Lists(added, data, i, 0)
    {
      for j := 0 to data.Length1
        invariant bag.kind == JACOBIAN_TYPE && bag.items == before + added && Lists(added, data, i, j)
      {
        ListsOneMore(added, data, i, j);
        bag.items := bag.items + [Property(data[i, j], true)];
        added := added + [Property(data[i, j], true)];
      }
      ListsRow(added, data, i);
    }
    assert bag.items[|before|..] == added;
  }

  /** The first r rows of data and the first c elements of the next row were read from items. */
  ghost predicate ReadFrom(items: seq<Property>, data: array2<real>, r: nat, c: nat)
    requires r <= data.Length0 && c <= data.Length1 && (r == data.Length0 ==> c == 0)
    reads data
  {
    forall i: nat, j: nat | (i < r && j < data.Length1) || (i == r && j < c) ::
      var k := Position(data.Length1, i, j); k < |items| && items[k] == Property(data[i, j], true)
  }

  class Jacobian {
    var data: array2<real>

    constructor (data: array2<real>)
      ensures this.data == data
    {
      this.data := data;
    }
  }

  /** No item that belongs to an element of six rows lacks its type. */
  predicate AllReady(items: seq<Property>) {
    forall k | 0 <= k < 6 * (|items| / 6) :: items[k].ready
  }

  /**
  composeProperty reads six rows of equal length into a new matrix and assigns it, unless the type of
  the bag or one of these items is wrong; then the Jacobian stays as it is.
  */
  method Compose(bag: PropertyBag, jacobian: Jacobian) returns (ok: bool)
    modifies jacobian
    ensures ok <==> bag.kind == "KDL.Jacobian" && AllReady(bag.items)
    ensures !ok ==> jacobian.data == old(jacobian.data)
    ensures ok ==> fresh(jacobian.data) && jacobian.data.Length0 == 6 && jacobian.data.Length1 == |bag.items| / 6
    ensures ok ==> ReadFrom(bag.items, jacobian.data, 6, 0)
  {
    var n := |bag.items| / 6;
    var data := new real[6, n];
    if bag.kind != JACOBIAN_TYPE { return false; }
    for i := 0 to 6
      invariant ReadFrom(bag.items, data, i, 0) && jacobian.data == old(jacobian.data)
    {
      for j := 0 to n
        invariant ReadFrom(bag.items, data, i, j) && jacobian.data == old(jacobian.data)
      {
        PositionIsProduct(n, i, j);
        PositionInBounds(n, 6, i, j);
        PositionIsProduct(n, 6, 0);
        var k := n * i + j;
        if !bag.items[k].ready { return false; }
        data[i, j] := bag.items[k].value;
      }
    }
    AllRead(bag.items, data);
    jacobian.data := data;
    return true;
  }

  lemma AllRead(items: seq<Property>, data: array2<real>)
    requires data.Length0 == 6 && data.Length1 == |items| / 6 && ReadFrom(items, data, 6, 0)
    ensures AllReady(items)
  {
    var n := data.Length1;
    PositionIsProduct(n, 6, 0);
    forall k | 0 <= k < 6 * n ensures items[k].ready {
      var i, j := PositionsCoverBag(n, 6, k);
    }
  }

  /** Composing what was decomposed into an empty bag gives the matrix back. */
  method DecomposeThenCompose(data: array2<real>) returns (ok: bool, copy: array2<real>)
    requires data.Length0 == 6
    ensures ok && copy.Length0 == 6 && copy.Length1 == data.Length1
    ensures forall i: nat, j: nat | i < 6 && j < data.Length1 :: copy[i, j] == data[i, j]
  {
    var bag := new PropertyBag();
    Decompose(data, bag);
    var n := data.Length1;
    assert bag.items[0..] == bag.items;
    PositionIsProduct(n, 6, 0);
    AllRead(bag.items, data);
    var jacobian := new Jacobian(data);
    ok := Compose(bag, jacobian);
    copy := jacobian.data;
    forall i: nat, j: nat | i < 6 && j < n ensures copy[i, j] == data[i, j] {
      assert bag.items[Position(n, i, j)] == Property(data[i, j], true);
    }
  }
}
