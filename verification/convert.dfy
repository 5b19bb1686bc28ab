/** The tree-data conversion of the treemap example: rows that each carry a
    path (a list of names under a path field) are inserted one by one into a
    tree of plain objects, reusing the child whose path field equals the next
    name and creating the missing ones.

    The row's path field holds an array; here a row is its other fields and
    that path. Node objects are their own fields plus an optional `children`
    array. */
module Convert {
  import opened Js

  /** An object of the tree: its fields and its `children` array, which is
      absent until something is inserted below it. */
  datatype Node = Node(fields: map<string, JsValue>, children: Children)

  /** A `children` array, or none yet. */
  datatype Children = Absent | Array(nodes: seq<Node>)

  /** A row: its path and its fields other than the path field. */
  datatype Row = Row(path: seq<string>, fields: map<string, JsValue>)

  /** The children, an absent array read as none. */
  function Kids(n: Node): (kids: seq<Node>)
    ensures n.children.Array? ==> kids == n.children.nodes
    ensures n.children.Absent? ==> kids == []
  {
    if n.children.Array? then n.children.nodes else []
  }

  /** `child[pathField] === part`. */
  predicate Named(c: Node, field: string, part: string) {
    field in c.fields && StrictEquals(c.fields[field], Str(part))
  }

  /** `children.find(...)`: the position of the first child named `part`, or -1. */
  function FindChild(kids: seq<Node>, field: string, part: string): (i: int)
    ensures -1 <= i < |kids|
    ensures i >= 0 ==> Named(kids[i], field, part)
    ensures forall j :: 0 <= j < |kids| && (i < 0 || j < i) ==> !Named(kids[j], field, part)
  {
    FindFrom(kids, field, part, 0)
  }

  function FindFrom(kids: seq<Node>, field: string, part: string, from: nat): (i: int)
    requires from <= |kids|
    ensures i == -1 || from <= i < |kids|
    ensures i >= 0 ==> Named(kids[i], field, part)
    ensures forall j :: from <= j < |kids| && (i < 0 || j < i) ==> !Named(kids[j], field, part)
    decreases |kids| - from
  {
    if from == |kids| then -1
    else if Named(kids[from], field, part) then from
    else FindFrom(kids, field, part, from + 1)
  }

  /** A copy of the row with the path field set to the last name: the leaf
      a row adds. */
  function Leaf(row: map<string, JsValue>, field: string, part: string): (n: Node)
    ensures Named(n, field, part) && n.children.Absent?
    ensures forall k :: k in row && k != field ==> k in n.fields && n.fields[k] == row[k]
  {
    Node(row[field := Str(part)], Absent)
  }

  /** An intermediate node: only the path field. */
  function Intermediate(field: string, part: string): (n: Node)
    ensures Named(n, field, part) && n.fields.Keys == {field} && n.children.Absent?
  {
    Node(map[field := Str(part)], Absent)
  }

  /** `insert` from the node reached so far: for each remaining name, the
      node's `children` array is created if absent, the child with that name
      is reused, and a missing one is created, as a copy of the row for the
      last name and as an intermediate node otherwise. A final node that
      already exists is left as it is. */
  function Insert(n: Node, parts: seq<string>, row: map<string, JsValue>, field: string): (r: Node)
    ensures r.fields == n.fields
    ensures parts != [] ==> r.children.Array?
    ensures parts == [] ==> r == n
    ensures |Kids(n)| <= |Kids(r)| <= |Kids(n)| + 1
    ensures forall j :: 0 <= j < |Kids(n)| ==> Kids(r)[j].fields == Kids(n)[j].fields
    ensures |Kids(r)| == |Kids(n)| + 1 ==> Named(Kids(r)[|Kids(n)|], field, parts[0])
    decreases |parts|
  {
    if parts == [] then n
    else
      var kids := Kids(n);
      var i := FindChild(kids, field, parts[0]);
      if i >= 0 then
        n.(children := Array(kids[i := Insert(kids[i], parts[1..], row, field)]))
      else if |parts| == 1 then
        n.(children := Array(kids + [Leaf(row, field, parts[0])]))
      else
        n.(children := Array(kids + [Insert(Intermediate(field, parts[0]), parts[1..], row, field)]))
  }

  /** The node a path leads to, following the first child of each name. */
  function Lookup(n: Node, parts: seq<string>, field: string): (r: Option<Node>)
    ensures parts == [] ==> r == Some(n)
    decreases |parts|
  {
    if parts == [] then Some(n)
    else
      var i := FindChild(Kids(n), field, parts[0]);
      if i < 0 then None else Lookup(Kids(n)[i], parts[1..], field)
  }

  /** The tree the conversion keeps: every child carries a string in the path
      field, siblings carry different ones, and so on all the way down. */
  predicate Valid(n: Node, field: string)
    decreases n
  {
    match n.children
    case Absent => true
    case Array(kids) =>
      (forall i :: 0 <= i < |kids| ==> field in kids[i].fields && kids[i].fields[field].Str?)
      && (forall i, j :: 0 <= i < j < |kids| ==> kids[i].fields[field] != kids[j].fields[field])
      && (forall i :: 0 <= i < |kids| ==> Valid(kids[i], field))
  }

  // ---------------------------------------------------------------------------
  // What one insertion does

  /** The child an insertion continues in: the one found by name, else the
      one it creates. */
  function Start(n: Node, parts: seq<string>, row: map<string, JsValue>, field: string): (c: Node)
    requires parts != []
    ensures Named(c, field, parts[0])
  {
    var i := FindChild(Kids(n), field, parts[0]);
    if i >= 0 then Kids(n)[i] else if |parts| == 1 then Leaf(row, field, parts[0]) else Intermediate(field, parts[0])
  }

  /** One level of an insertion: the path leads through the child it continues in. */
  lemma InsertStep(n: Node, parts: seq<string>, row: map<string, JsValue>, field: string)
    requires parts != []
    ensures Lookup(Insert(n, parts, row, field), parts, field)
            == Lookup(Insert(Start(n, parts, row, field), parts[1..], row, field), parts[1..], field)
  {
    var kids := Kids(n);
    var r := Insert(n, parts, row, field);
    var i := FindChild(kids, field, parts[0]);
    var c := Insert(Start(n, parts, row, field), parts[1..], row, field);
    if i >= 0 {
      assert Kids(r) == kids[i := c];
      assert FindChild(Kids(r), field, parts[0]) == i;
    } else {
      assert Kids(r) == kids + [c];
      assert FindChild(Kids(r), field, parts[0]) == |kids|;
    }
  }

  /** After an insertion the row's path leads somewhere. */
  lemma {:induction false} InsertReaches(n: Node, parts: seq<string>, row: map<string, JsValue>, field: string)
    ensures Lookup(Insert(n, parts, row, field), parts, field).Some?
    decreases |parts|
  {
    if parts != [] {
      InsertStep(n, parts, row, field);
      InsertReaches(Start(n, parts, row, field), parts[1..], row, field);
    }
  }

  /** A path that already leads somewhere leaves the tree unchanged: the
      existing final node is not merged with the row, and inserting the same
      path twice is inserting it once. */
  lemma {:induction false} InsertExisting(n: Node, parts: seq<string>, row: map<string, JsValue>, field: string)
    requires Lookup(n, parts, field).Some?
    ensures Insert(n, parts, row, field) == n
    decreases |parts|
  {
    if parts != [] {
      var kids := Kids(n);
      var i := FindChild(kids, field, parts[0]);
      InsertExisting(kids[i], parts[1..], row, field);
      assert kids[i := kids[i]] == kids;
    }
  }

  lemma InsertIdempotent(n: Node, parts: seq<string>, row: map<string, JsValue>, other: map<string, JsValue>, field: string)
    ensures var once := Insert(n, parts, row, field);
            Insert(once, parts, other, field) == once
  {
    InsertReaches(n, parts, row, field);
    InsertExisting(Insert(n, parts, row, field), parts, other, field);
  }

  /** A new path ends in a copy of the row named by the last name, without children. */
  lemma {:induction false} InsertNew(n: Node, parts: seq<string>, row: map<string, JsValue>, field: string)
    requires parts != [] && Lookup(n, parts, field).None?
    ensures Lookup(Insert(n, parts, row, field), parts, field) == Some(Leaf(row, field, parts[|parts| - 1]))
    decreases |parts|
  {
    var c := Start(n, parts, row, field);
    InsertStep(n, parts, row, field);
    if |parts| > 1 {
      if FindChild(Kids(n), field, parts[0]) < 0 {
        FreshPathNew(c, parts[1..], field);
      }
      InsertNew(c, parts[1..], row, field);
      assert parts[1..][|parts[1..]| - 1] == parts[|parts| - 1];
    }
  }

  /** A node without children has no non-empty path below it. */
  lemma FreshPathNew(m: Node, parts: seq<string>, field: string)
    requires m.children.Absent? && parts != []
    ensures Lookup(m, parts, field).None?
  {
  }

  /** The first child of a name is found at the same place once later
      children are added or a child is replaced by one with the same fields. */
  lemma FindKept(kids: seq<Node>, later: seq<Node>, field: string, part: string)
    requires |kids| <= |later|
    requires forall j :: 0 <= j < |kids| ==> later[j].fields == kids[j].fields
    requires FindChild(kids, field, part) >= 0
    ensures FindChild(later, field, part) == FindChild(kids, field, part)
  {
    var i := FindChild(kids, field, part);
    assert Named(later[i], field, part);
    forall j | 0 <= j < i
      ensures !Named(later[j], field, part)
    {
      assert !Named(kids[j], field, part);
    }
  }

  /** Insertion loses nothing: every path that led somewhere still does. */
  lemma {:induction false} InsertKeepsPaths(n: Node, parts: seq<string>, row: map<string, JsValue>, field: string,
                                            q: seq<string>)
    requires Lookup(n, q, field).Some?
    ensures Lookup(Insert(n, parts, row, field), q, field).Some?
    decreases |q|
  {
    if q != [] && parts != [] {
      var kids := Kids(n);
      var r := Insert(n, parts, row, field);
      var k := FindChild(kids, field, q[0]);
      FindKept(kids, Kids(r), field, q[0]);
      var i := FindChild(kids, field, parts[0]);
      if i >= 0 && i == k {
        var c := Insert(kids[i], parts[1..], row, field);
        assert Kids(r)[k] == c;
        InsertKeepsPaths(kids[i], parts[1..], row, field, q[1..]);
      } else {
        assert Kids(r)[k] == kids[k];
      }
    }
  }

  /** Insertion keeps the tree valid: the child it continues in keeps its
      name, and a child it adds carries a name no sibling has. */
  lemma {:induction false} InsertKeepsValid(n: Node, parts: seq<string>, row: map<string, JsValue>, field: string)
    requires Valid(n, field)
    ensures Valid(Insert(n, parts, row, field), field)
    decreases |parts|
  {
    if parts != [] {
      var kids := Kids(n);
      var r := Insert(n, parts, row, field);
      var i := FindChild(kids, field, parts[0]);
      var s := Start(n, parts, row, field);
      var c := Insert(s, parts[1..], row, field);
      assert Valid(s, field);
      InsertKeepsValid(s, parts[1..], row, field);
      assert c.fields[field] == Str(parts[0]);
      var out := Kids(r);
      if i >= 0 {
        assert out == kids[i := c];
      } else {
        assert out == kids + [c];
        forall j | 0 <= j < |kids|
          ensures out[j].fields[field] != out[|kids|].fields[field]
        {
          assert !Named(kids[j], field, parts[0]);
        }
      }
      assert r.children == Array(out);
    }
  }

  // ---------------------------------------------------------------------------
  // The conversion

  /** `rows.forEach(row => insert(root, row, field))`. */
  function InsertAll(n: Node, rows: seq<Row>, field: string): (r: Node)
    ensures r.fields == n.fields
    decreases |rows|
  {
    if rows == [] then n else InsertAll(Insert(n, rows[0].path, rows[0].fields, field), rows[1..], field)
  }

  /** After all the rows, the tree is valid and every row's path leads somewhere. */
  lemma {:induction false} InsertAllReaches(n: Node, rows: seq<Row>, field: string)
    requires Valid(n, field)
    ensures Valid(InsertAll(n, rows, field), field)
    ensures forall k :: 0 <= k < |rows| ==> Lookup(InsertAll(n, rows, field), rows[k].path, field).Some?
    decreases |rows|
  {
    if rows != [] {
      var m := Insert(n, rows[0].path, rows[0].fields, field);
      InsertKeepsValid(n, rows[0].path, rows[0].fields, field);
      InsertAllReaches(m, rows[1..], field);
      InsertReaches(n, rows[0].path, rows[0].fields, field);
      InsertAllKeepsPaths(m, rows[1..], field, rows[0].path);
      forall k | 1 <= k < |rows|
        ensures Lookup(InsertAll(n, rows, field), rows[k].path, field).Some?
      {
        assert rows[k] == rows[1..][k - 1];
      }
    }
  }

  /** Later rows lose no path. */
  lemma {:induction false} InsertAllKeepsPaths(n: Node, rows: seq<Row>, field: string, q: seq<string>)
    requires Lookup(n, q, field).Some?
    ensures Lookup(InsertAll(n, rows, field), q, field).Some?
    decreases |rows|
  {
    if rows != [] {
      InsertKeepsPaths(n, rows[0].path, rows[0].fields, field, q);
      InsertAllKeepsPaths(Insert(n, rows[0].path, rows[0].fields, field), rows[1..], field, q);
    }
  }

  const PathField := "orgHierarchy"

  function Employee(path: seq<string>, jobTitle: string, employmentType: string): Row {
    Row(path, map["jobTitle" := Str(jobTitle), "employmentType" := Str(employmentType)])
  }

  /** The example's organisation chart: each row's path runs from the chief
      executive down to the employee. */
  const RowData: seq<Row> := [
    Employee(["Erica Rogers"], "CEO", "Permanent"),
    Employee(["Erica Rogers", "Malcolm Barrett"], "Exec. Vice President", "Permanent"),
    Employee(["Erica Rogers", "Malcolm Barrett", "Esther Baker"], "Director of Operations", "Permanent"),
    Employee(["Erica Rogers", "Malcolm Barrett", "Esther Baker", "Brittany Hanson"], "Fleet Coordinator", "Permanent"),
    Employee(["Erica Rogers", "Malcolm Barrett", "Esther Baker", "Brittany Hanson", "Leah Flowers"], "Parts Technician", "Contract"),
    Employee(["Erica Rogers", "Malcolm Barrett", "Esther Baker", "Brittany Hanson", "Tammy Sutton"], "Service Technician", "Contract"),
    Employee(["Erica Rogers", "Malcolm Barrett", "Esther Baker", "Derek Paul"], "Inventory Control", "Permanent"),
    Employee(["Erica Rogers", "Malcolm Barrett", "Francis Strickland"], "VP Sales", "Permanent"),
    Employee(["Erica Rogers", "Malcolm Barrett", "Francis Strickland", "Morris Hanson"], "Sales Manager", "Permanent"),
    Employee(["Erica Rogers", "Malcolm Barrett", "Francis Strickland", "Todd Tyler"], "Sales Executive", "Contract"),
    Employee(["Erica Rogers", "Malcolm Barrett", "Francis Strickland", "Bennie Wise"], "Sales Executive", "Contract"),
    Employee(["Erica Rogers", "Malcolm Barrett", "Francis Strickland", "Joel Cooper"], "Sales Executive", "Permanent")
  ]

  /** `convertGridTreeData`: its argument is ignored; the tree is built from
      the example's own rows into an empty root object. The result is a valid
      tree in which every row's path leads somewhere. */
  function ConvertGridTreeData(data: JsValue): (root: Node)
    ensures root.fields == map[]
    ensures Valid(root, PathField)
    ensures forall k :: 0 <= k < |RowData| ==> Lookup(root, RowData[k].path, PathField).Some?
  {
    var empty := Node(map[], Absent);
    InsertAllReaches(empty, RowData, PathField);
    InsertAll(empty, RowData, PathField)
  }
}
