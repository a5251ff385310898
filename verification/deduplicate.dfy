/** ConversionUtil.deduplicateKeys: turns an array of records into one object
    {"keys": [...], "values": [[...], ...]} so that field names appear only once. */
module Deduplicate {
  import opened Wrappers
  import opened DocTree

  /** The index of the first element that has at least one field, or the length
      of the array when none has. */
  function FirstKeyed(items: seq<Node>): (k: nat)
    ensures k <= |items|
    ensures forall j :: 0 <= j < k ==> FieldNames(items[j]) == []
    ensures k < |items| ==> FieldNames(items[k]) != []
  {
    if items == [] then 0
    else if FieldNames(items[0]) != [] then 0
    else
      var k := FirstKeyed(items[1..]);
      assert forall j :: 1 <= j < 1 + k ==> items[j] == items[1..][j - 1];
      1 + k
  }

  /** The column names: the field names of the first element that has any. */
  function KeysFor(items: seq<Node>): (r: seq<string>)
    ensures r == [] <==> forall i :: 0 <= i < |items| ==> FieldNames(items[i]) == []
    ensures r != [] ==> FirstKeyed(items) < |items| && r == FieldNames(items[FirstKeyed(items)])
  {
    var k := FirstKeyed(items);
    if k < |items| then FieldNames(items[k]) else []
  }

  /** ArrayNode.add(element.get(key)): the field's value, or Null when the element
      has no such field or is not an object. */
  function Cell(element: Node, key: string): (r: Node)
    ensures key in FieldNames(element) ==> Get(element, key) == Some(r)
    ensures key !in FieldNames(element) ==> r == Null
  {
    match Get(element, key)
    case Some(v) => v
    case None => Null
  }

  /** One row of "values": the element's cell for each key, in key order. */
  function Row(element: Node, keys: seq<string>): (r: seq<Node>)
    ensures |r| == |keys|
    ensures forall m :: 0 <= m < |keys| ==> r[m] == Cell(element, keys[m])
  {
    seq(|keys|, i requires 0 <= i < |keys| => Cell(element, keys[i]))
  }

  /** The rows of "values", one per element. Elements before the first one with
      fields get an empty row, because no keys are known yet when they are seen. */
  function Rows(items: seq<Node>): (r: seq<Node>)
    ensures |r| == |items|
    ensures forall i :: 0 <= i < FirstKeyed(items) ==> r[i] == Array([])
    ensures forall i :: FirstKeyed(items) <= i < |items| ==> r[i] == Array(Row(items[i], KeysFor(items)))
  {
    var k := FirstKeyed(items);
    var keys := KeysFor(items);
    seq(|items|, i requires 0 <= i < |items| => Array(if i < k then [] else Row(items[i], keys)))
  }

  /** The specification of the transform. */
  function Deduplicated(original: Node): (r: Node)
    ensures !original.Array? ==> r == original
    ensures original.Array? ==> r.Object? && FieldNames(r) == ["keys", "values"]
  {
    match original
    case Array(items) =>
      var r := Object([("keys", Array(TextNodes(KeysFor(items)))), ("values", Array(Rows(items)))]);
      assert FieldNames(r) == ["keys", "values"];
      r
    case _ => original
  }

  /** The transform as the source runs it: arrays are restructured, every other
      node is returned as it is. */
  method DeduplicateKeys(original: Node) returns (deduplicated: Node)
    ensures deduplicated == Deduplicated(original)
  {
    if !original.Array? {
      return original;
    }
    var keys, values := ScanElements(original.items);
    deduplicated := Object([("keys", Array(TextNodes(keys))), ("values", Array(values))]);
  }

  /** The loop of deduplicateKeys: one pass over the elements that fills the key
      list from the first element with fields and appends one row per element. */
  method ScanElements(items: seq<Node>) returns (keys: seq<string>, values: seq<Node>)
    ensures keys == KeysFor(items)
    ensures values == Rows(items)
  {
    keys := [];
    values := [];
    var i := 0;
    while i < |items|
      invariant 0 <= i <= |items|
      invariant keys == KeysSeen(items, i)
      invariant values == Rows(items)[..i]
    {
      var next := items[i];
      if |keys| == 0 {
        keys := FieldNames(next);
      }
      var value := FillRow(next, keys);
      ScanStep(items, i, keys, values, value);
      values := values + [Array(value)];
      i := i + 1;
    }
    assert Rows(items)[..i] == Rows(items);
  }

  /** The key list after the first i elements have been seen. */
  function KeysSeen(items: seq<Node>, i: nat): seq<string> {
    if i <= FirstKeyed(items) then [] else KeysFor(items)
  }

  /** The key list in use for element i: the one seen so far, or the element's own
      field names while none has been seen. */
  lemma KeysStep(items: seq<Node>, i: nat)
    requires i < |items|
    ensures (if |KeysSeen(items, i)| == 0 then FieldNames(items[i]) else KeysSeen(items, i))
      == KeysSeen(items, i + 1)
  {
    var k := FirstKeyed(items);
    if i < k {
      assert FieldNames(items[i]) == [];
    } else if i > k {
      assert KeysSeen(items, i) == KeysFor(items) != [];
    }
  }

  /** Row i of "values" is element i's row over the keys seen after it. */
  lemma RowsStep(items: seq<Node>, i: nat)
    requires i < |items|
    ensures Rows(items)[..i + 1] == Rows(items)[..i] + [Array(Row(items[i], KeysSeen(items, i + 1)))]
  {
    var rows := Rows(items);
    var k := FirstKeyed(items);
    assert rows[i] == Array(if i < k then [] else Row(items[i], KeysFor(items)));
    if i < k {
      assert Row(items[i], KeysSeen(items, i + 1)) == [];
    } else {
      assert KeysSeen(items, i + 1) == KeysFor(items);
    }
    PrefixStep(rows, i);
  }

  /** One pass of the element loop keeps both loop invariants. */
  lemma ScanStep(items: seq<Node>, i: nat, keys: seq<string>, values: seq<Node>, value: seq<Node>)
    requires i < |items| && values == Rows(items)[..i]
    requires keys == (if |KeysSeen(items, i)| == 0 then FieldNames(items[i]) else KeysSeen(items, i))
    requires value == Row(items[i], keys)
    ensures keys == KeysSeen(items, i + 1)
    ensures values + [Array(value)] == Rows(items)[..i + 1]
  {
    KeysStep(items, i);
    RowsStep(items, i);
  }

  /** A prefix one longer is the prefix with the next element appended. */
  lemma PrefixStep<T>(s: seq<T>, i: nat)
    requires i < |s|
    ensures s[..i + 1] == s[..i] + [s[i]]
  {
  }

  /** keys.forEach(key -> value.add(next.get(key.asText()))): the element's cells,
      appended one key at a time. */
  method FillRow(next: Node, keys: seq<string>) returns (value: seq<Node>)
    ensures value == Row(next, keys)
  {
    value := [];
    var m := 0;
    while m < |keys|
      invariant 0 <= m <= |keys|
      invariant value == Row(next, keys[..m])
    {
      value := value + [Cell(next, keys[m])];
      m := m + 1;
      assert keys[..m] == keys[..m - 1] + [keys[m - 1]];
    }
    assert keys[..m] == keys;
  }

  /** Applying the transform to its own output changes nothing: the output is an
      object, and objects are returned as they are. */
  lemma DeduplicatedIdempotent(n: Node)
    ensures Deduplicated(Deduplicated(n)) == Deduplicated(n)
  {
  }

  /** An empty array becomes {"keys": [], "values": []}. */
  lemma DeduplicatedEmpty()
    ensures Deduplicated(Array([])) == Object([("keys", Array([])), ("values", Array([]))])
  {
    var r := Deduplicated(Array([]));
    assert r.fields[0].1.items == [];
    assert r.fields[1].1.items == [];
  }

  /** The shape of the result on an array: the key list is the field names of the
      first element with fields; there is one row per element, in order; rows
      before that element are empty; every later row has one cell per key, holding
      the element's value for that key or Null when it has none. */
  lemma DeduplicatedCells(items: seq<Node>)
    ensures var r := Deduplicated(Array(items));
      var k := FirstKeyed(items);
      && r.fields[0] == ("keys", Array(TextNodes(KeysFor(items))))
      && r.fields[1].0 == "values" && r.fields[1].1.Array?
      && |r.fields[1].1.items| == |items|
      && (forall i :: 0 <= i < k ==> r.fields[1].1.items[i] == Array([]))
      && (forall i :: k <= i < |items| ==>
            r.fields[1].1.items[i].Array? && |r.fields[1].1.items[i].items| == |KeysFor(items)|)
      && (forall i, m :: k <= i < |items| && 0 <= m < |KeysFor(items)| ==>
            var cell := r.fields[1].1.items[i].items[m];
            var key := KeysFor(items)[m];
            (key in FieldNames(items[i]) ==> Get(items[i], key) == Some(cell))
            && (key !in FieldNames(items[i]) ==> cell == Null))
  {
  }

  /** Once an element with fields has been seen, the keys are fixed: elements
      appended later, whatever fields they have, do not change them. */
  lemma {:induction false} KeysFixedByFirstKeyed(items: seq<Node>, more: seq<Node>)
    requires FirstKeyed(items) < |items|
    ensures FirstKeyed(items + more) == FirstKeyed(items)
    ensures KeysFor(items + more) == KeysFor(items)
  {
    if FieldNames(items[0]) == [] {
      assert (items + more)[1..] == items[1..] + more;
      KeysFixedByFirstKeyed(items[1..], more);
    }
  }

  /** The transform keeps every object's keys distinct. */
  lemma DeduplicatedWellFormed(n: Node)
    requires WellFormed(n)
    ensures WellFormed(Deduplicated(n))
  {
    if n.Array? {
      var items := n.items;
      var keys := KeysFor(items);
      var k := FirstKeyed(items);
      var r := Deduplicated(n);
      var rows := r.fields[1].1.items;
      forall i | 0 <= i < |rows|
        ensures WellFormed(rows[i])
      {
        if i >= k {
          forall m | 0 <= m < |keys|
            ensures WellFormed(Cell(items[i], keys[m]))
          {
            if Get(items[i], keys[m]).Some? {
              GetWellFormed(items[i], keys[m]);
            }
          }
        }
      }
    }
  }

  /** An object's row over its own keys is its values, in order. */
  lemma RowOfOwnKeys(e: Node)
    requires e.Object? && UniqueKeys(e.fields)
    ensures Row(e, FieldNames(e)) == ValuesOf(e.fields)
  {
    forall m | 0 <= m < |e.fields|
      ensures Cell(e, FieldNames(e)[m]) == e.fields[m].1
    {
      FindFieldAt(e.fields, m);
    }
  }

  /** For an array of objects that all have the same non-empty field names, in the
      same order, the keys are those names and each row holds the corresponding
      object's values in order. */
  lemma HomogeneousRows(items: seq<Node>, names: seq<string>)
    requires items != [] && names != []
    requires forall i :: 0 <= i < |items| ==>
      items[i].Object? && UniqueKeys(items[i].fields) && FieldNames(items[i]) == names
    ensures Deduplicated(Array(items)) == Object([
      ("keys", Array(TextNodes(names))),
      ("values", Array(seq(|items|, i requires 0 <= i < |items| => Array(ValuesOf(items[i].fields))))) ])
  {
    assert FirstKeyed(items) == 0;
    assert KeysFor(items) == names;
    forall i | 0 <= i < |items|
      ensures Row(items[i], names) == ValuesOf(items[i].fields)
    {
      RowOfOwnKeys(items[i]);
    }
    assert seq(|items|, i requires 0 <= i < |items| => Array(if i < 0 then [] else Row(items[i], names)))
      == seq(|items|, i requires 0 <= i < |items| => Array(ValuesOf(items[i].fields)));
  }

  /** The record {"x": p, "y": q}: its keys are distinct, its names are x then y,
      and its values are p then q. */
  lemma RecordXY(p: int, q: int)
    ensures var a := Object([("x", Number(p)), ("y", Number(q))]);
      && UniqueKeys(a.fields)
      && FieldNames(a) == ["x", "y"]
      && ValuesOf(a.fields) == [Number(p), Number(q)]
  {
    var a := Object([("x", Number(p)), ("y", Number(q))]);
    assert KeysOf(a.fields) == ["x", "y"];
    assert ValuesOf(a.fields) == [Number(p), Number(q)];
  }

  /** The two records of the example, reduced by HomogeneousRows. */
  lemma TwoRecordsShape()
    ensures var a := Object([("x", Number(1)), ("y", Number(2))]);
      var b := Object([("x", Number(3)), ("y", Number(4))]);
      Deduplicated(Array([a, b])) == Object([
        ("keys", Array(TextNodes(["x", "y"]))),
        ("values", Array(seq(2, i requires 0 <= i < 2 => Array(ValuesOf([a, b][i].fields)))))])
  {
    var a := Object([("x", Number(1)), ("y", Number(2))]);
    var b := Object([("x", Number(3)), ("y", Number(4))]);
    RecordXY(1, 2);
    RecordXY(3, 4);
    HomogeneousRows([a, b], ["x", "y"]);
  }

  /** The example's rows, written out. */
  lemma TwoRecordsValues(a: Node, b: Node)
    requires a == Object([("x", Number(1)), ("y", Number(2))])
    requires b == Object([("x", Number(3)), ("y", Number(4))])
    ensures seq(2, i requires 0 <= i < 2 => Array(ValuesOf([a, b][i].fields)))
      == [Array([Number(1), Number(2)]), Array([Number(3), Number(4)])]
  {
    RecordXY(1, 2);
    RecordXY(3, 4);
  }

  /** [{"x":1,"y":2},{"x":3,"y":4}] becomes {"keys":["x","y"],"values":[[1,2],[3,4]]}. */
  lemma TwoRecordsExample()
    ensures Deduplicated(Array([
        Object([("x", Number(1)), ("y", Number(2))]),
        Object([("x", Number(3)), ("y", Number(4))])]))
      == Object([
        ("keys", Array([Str("x"), Str("y")])),
        ("values", Array([Array([Number(1), Number(2)]), Array([Number(3), Number(4)])]))])
  {
    TwoRecordsShape();
    TwoRecordsValues(Object([("x", Number(1)), ("y", Number(2))]), Object([("x", Number(3)), ("y", Number(4))]));
    assert TextNodes(["x", "y"]) == [Str("x"), Str("y")];
  }
}
