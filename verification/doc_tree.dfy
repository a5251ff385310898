/** The format-neutral document tree every reader produces and every writer
    consumes: the part of Jackson's JsonNode the converter uses. */
module DocTree {
  import opened Wrappers

  /** Numbers are kept integral: decimal precision is not part of this model. */
  datatype Node =
    | Null
    | Bool(truth: bool)
    | Number(number: int)
    | Str(text: string)
    | Array(items: seq<Node>)
    | Object(fields: seq<(string, Node)>)

  /** The keys of an object's fields, in field order. */
  function KeysOf(fields: seq<(string, Node)>): seq<string> {
    seq(|fields|, i requires 0 <= i < |fields| => fields[i].0)
  }

  /** The values of an object's fields, in field order. */
  function ValuesOf(fields: seq<(string, Node)>): seq<Node> {
    seq(|fields|, i requires 0 <= i < |fields| => fields[i].1)
  }

  predicate UniqueKeys(fields: seq<(string, Node)>) {
    forall i, j :: 0 <= i < j < |fields| ==> fields[i].0 != fields[j].0
  }

  /** Every object in the tree has pairwise distinct keys. */
  predicate WellFormed(n: Node) {
    match n
    case Array(items) => forall i :: 0 <= i < |items| ==> WellFormed(items[i])
    case Object(fields) =>
      UniqueKeys(fields) && forall i :: 0 <= i < |fields| ==> WellFormed(fields[i].1)
    case _ => true
  }

  /** JsonNode.fieldNames(): an object's keys in order; no names for any other node. */
  function FieldNames(n: Node): (r: seq<string>)
    ensures !n.Object? ==> r == []
    ensures n.Object? ==> |r| == |n.fields| && forall i :: 0 <= i < |r| ==> r[i] == n.fields[i].0
    ensures WellFormed(n) ==> forall i, j :: 0 <= i < j < |r| ==> r[i] != r[j]
  {
    if n.Object? then KeysOf(n.fields) else []
  }

  /** The value of the first field named key. */
  function FindField(fields: seq<(string, Node)>, key: string): (r: Option<Node>)
    ensures r.Some? <==> exists i :: 0 <= i < |fields| && fields[i].0 == key
    ensures r.Some? ==> exists i :: 0 <= i < |fields| && fields[i] == (key, r.value)
  {
    if fields == [] then None
    else if fields[0].0 == key then Some(fields[0].1)
    else
      var r := FindField(fields[1..], key);
      assert forall i :: 0 < i < |fields| ==> fields[i] == fields[1..][i - 1];
      r
  }

  /** JsonNode.get(String): an object's value for key, absent (null) for a missing
      key and for every node that is not an object. */
  function Get(n: Node, key: string): (r: Option<Node>)
    ensures r.Some? <==> key in FieldNames(n)
    ensures r.Some? ==> n.Object? && (key, r.value) in n.fields
  {
    if n.Object? then
      var r := FindField(n.fields, key);
      assert r.Some? <==> key in KeysOf(n.fields) by {
        if key in KeysOf(n.fields) {
          var i :| 0 <= i < |n.fields| && KeysOf(n.fields)[i] == key;
        }
        if r.Some? {
          var i :| 0 <= i < |n.fields| && n.fields[i].0 == key;
          assert KeysOf(n.fields)[i] == key;
        }
      }
      r
    else None
  }

  /** TextNode.valueOf over a list of names. */
  function TextNodes(names: seq<string>): seq<Node> {
    seq(|names|, i requires 0 <= i < |names| => Str(names[i]))
  }

  /** In an object with distinct keys, looking up the i-th key yields the i-th value. */
  lemma {:induction false} FindFieldAt(fields: seq<(string, Node)>, i: nat)
    requires UniqueKeys(fields) && i < |fields|
    ensures FindField(fields, fields[i].0) == Some(fields[i].1)
  {
    if i > 0 {
      assert fields[0].0 != fields[i].0;
      assert fields[1..][i - 1] == fields[i];
      FindFieldAt(fields[1..], i - 1);
    }
  }

  /** Every value found in a well-formed object is itself well-formed. */
  lemma GetWellFormed(n: Node, key: string)
    requires WellFormed(n) && Get(n, key).Some?
    ensures WellFormed(Get(n, key).value)
  {
    var v := Get(n, key).value;
    var i :| 0 <= i < |n.fields| && n.fields[i] == (key, v);
  }
}
