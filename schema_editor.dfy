/** The database-schema step of the project wizard: a list of tables with typed fields, one graph
    node per table (whose position belongs to the canvas), and the relationships drawn between
    tables, created through a pending edge whose cardinality the user confirms.

    Every handler of the step replaces some of its seven state slots with a new list computed by
    a `map`/`filter`/spread; those computations are the functions of this module, and the class
    `Editor` at the end holds the slots and applies them. */
module SchemaEditor {
  import opened Common
  import opened Text
  import Lists

  type Id = string

  /** The three relationship types the chooser offers: '1:1', '1:n' and 'n:m'. */
  datatype Cardinality = OneToOne | OneToMany | ManyToMany

  /** The types the field selector lists; the selector also offers the blank type "". */
  const DataTypes: seq<string> := ["string", "int", "uuid", "boolean", "date", "float", "json", "text"]

  /** `isPrimary` is optional in the source: `None` is `undefined`, which reads as false. */
  datatype Field = Field(id: Id, name: string, fieldType: string, isPrimary: Option<bool>)

  datatype Table = Table(id: Id, name: string, fields: seq<Field>)

  datatype Point = Point(x: int, y: int)

  /** A node's `data`: `{}` as first created, or the matching table's snapshot (together with
      the editor callbacks, which the model leaves out) once the node has been refreshed. */
  datatype NodeData = Blank | Bound(table: Table)

  datatype Node = Node(id: Id, position: Point, data: NodeData)

  /** A relationship edge; the source keeps the cardinality twice, as `label` and `data.relType`. */
  datatype Edge = Edge(id: Id, source: Id, target: Id, edgeLabel: Cardinality, relType: Cardinality)

  /** What the canvas reports for a connect gesture. */
  datatype Connection = Connection(source: Id, target: Id)

  /** The payload handed to `setData` on Continue. */
  datatype Schema = Schema(tables: seq<Table>, edges: seq<Edge>)

  /** The two keys `handleFieldChange` accepts. */
  datatype FieldKey = NameKey | TypeKey

  predicate IsPrimary(f: Field) {
    f.isPrimary == Some(true)
  }

  // ---------------------------------------------------------------------------------------------
  // Initial state and fresh values

  const InitialTables: seq<Table> := [
    Table("table-1", "users", [
      Field("field-1", "id", "uuid", None),
      Field("field-2", "email", "string", None)
    ])
  ]

  const InitialNodes: seq<Node> := [Node("table-1", Point(100, 100), Blank)]

  /** `table-${Date.now()}`, with the clock reading supplied. */
  function TableId(now: nat): Id { "table-" + NatToString(now) }

  /** `field-${Date.now()}`. */
  function FieldId(now: nat): Id { "field-" + NatToString(now) }

  /** `rel-${source}-${target}-${Date.now()}`. */
  function RelationshipId(c: Connection, now: nat): Id {
    "rel-" + c.source + "-" + c.target + "-" + NatToString(now)
  }

  /** The table "Add Table" creates: named "new_table", seeded with the field `id` of type uuid. */
  function NewTable(now: nat, fieldNow: nat): (t: Table)
    ensures t.id == TableId(now) && t.name == "new_table"
    ensures |t.fields| == 1 && t.fields[0].name == "id" && t.fields[0].fieldType == "uuid"
    ensures !IsPrimary(t.fields[0])
  {
    Table(TableId(now), "new_table", [Field(FieldId(fieldNow), "id", "uuid", None)])
  }

  /** Where the node of the (count+1)-th table is placed: a stride of 180 to the right per node. */
  function NewNodePosition(count: nat): (p: Point)
    ensures p == Point(200 + 180 * count, 120)
    ensures p.y == 120 && p.x >= 200
    ensures forall c: nat | c < count :: NewNodePosition(c).x + 180 <= p.x
  {
    Point(200 + count * 180, 120)
  }

  /** The stride counts the nodes present, not the tables ever added: after two additions and
      the removal of the first new node, the next node is placed exactly on the surviving one. */
  lemma PlacementAfterRemovalOverlaps()
    ensures var ns := InitialNodes + [Node("table-2", NewNodePosition(1), Blank),
                                      Node("table-3", NewNodePosition(2), Blank)];
            var left := RemoveNode(ns, "table-2");
            |left| == 2 && left[1].id == "table-3" &&
            NewNodePosition(|left|) == left[1].position
  {
    var ns := InitialNodes + [Node("table-2", NewNodePosition(1), Blank),
                              Node("table-3", NewNodePosition(2), Blank)];
    assert "table-1"[6] != "table-2"[6] && "table-3"[6] != "table-2"[6];
    assert ns[1..][1..] == [ns[2]] && ns[1].id == "table-2";
    assert RemoveNode(ns[1..], "table-2") == RemoveNode([ns[2]], "table-2") == [ns[2]];
  }

  /** The blank field "Add Column" appends. */
  function BlankField(now: nat): Field {
    Field(FieldId(now), "", "", Some(false))
  }

  // ---------------------------------------------------------------------------------------------
  // Views of the slots

  function TableIds(ts: seq<Table>): (ids: seq<Id>)
    ensures |ids| == |ts| && forall i | 0 <= i < |ts| :: ids[i] == ts[i].id
  {
    seq(|ts|, i requires 0 <= i < |ts| => ts[i].id)
  }

  function NodeIds(ns: seq<Node>): (ids: seq<Id>)
    ensures |ids| == |ns| && forall i | 0 <= i < |ns| :: ids[i] == ns[i].id
  {
    seq(|ns|, i requires 0 <= i < |ns| => ns[i].id)
  }

  function Positions(ns: seq<Node>): (ps: seq<Point>)
    ensures |ps| == |ns| && forall i | 0 <= i < |ns| :: ps[i] == ns[i].position
  {
    seq(|ns|, i requires 0 <= i < |ns| => ns[i].position)
  }

  function FieldIds(fs: seq<Field>): (ids: seq<Id>)
    ensures |ids| == |fs| && forall j | 0 <= j < |fs| :: ids[j] == fs[j].id
  {
    seq(|fs|, j requires 0 <= j < |fs| => fs[j].id)
  }

  predicate Touches(e: Edge, id: Id) {
    e.source == id || e.target == id
  }

  /** Both endpoints of every edge are tables of `ts`. */
  predicate EdgesWithin(es: seq<Edge>, ts: seq<Table>) {
    forall e | e in es :: e.source in TableIds(ts) && e.target in TableIds(ts)
  }

  predicate PendingWithin(p: Option<Edge>, ts: seq<Table>) {
    p.Some? ==> p.value.source in TableIds(ts) && p.value.target in TableIds(ts)
  }

  /** Node i shows table i: same id, and its data is that table's current snapshot. */
  predicate Synced(ns: seq<Node>, ts: seq<Table>) {
    |ns| == |ts| && forall i | 0 <= i < |ns| :: ns[i].id == ts[i].id && ns[i].data == Bound(ts[i])
  }

  /** `tables.find(t => t.id === id)`: the first table with that id. */
  function FindTable(ts: seq<Table>, id: Id): (r: Option<Table>)
    ensures r.Some? <==> id in TableIds(ts)
    ensures r.Some? ==> r.value in ts && r.value.id == id
  {
    if ts == [] then None
    else if ts[0].id == id then Some(ts[0])
    else
      assert TableIds(ts) == [ts[0].id] + TableIds(ts[1..]);
      FindTable(ts[1..], id)
  }

  /** With distinct ids, `find` returns the one table carrying the id. */
  lemma {:induction false} FindTableAt(ts: seq<Table>, i: nat)
    requires Lists.NoDup(TableIds(ts)) && i < |ts|
    ensures FindTable(ts, ts[i].id) == Some(ts[i])
  {
    if i > 0 {
      assert TableIds(ts)[0] != TableIds(ts)[i];
      assert TableIds(ts[1..]) == TableIds(ts)[1..];
      FindTableAt(ts[1..], i - 1);
    }
  }

  // ---------------------------------------------------------------------------------------------
  // Cascade delete: three filters

  /** `tables.filter(t => t.id !== id)`. */
  function RemoveTable(ts: seq<Table>, id: Id): (r: seq<Table>)
    ensures |r| <= |ts|
  {
    if ts == [] then []
    else if ts[0].id == id then RemoveTable(ts[1..], id)
    else [ts[0]] + RemoveTable(ts[1..], id)
  }

  /** A table delete keeps exactly the tables with another id. */
  lemma {:induction false} RemoveTableIn(ts: seq<Table>, id: Id)
    ensures forall t | t in RemoveTable(ts, id) :: t in ts && t.id != id
    ensures forall t | t in ts && t.id != id :: t in RemoveTable(ts, id)
  {
    if ts != [] {
      RemoveTableIn(ts[1..], id);
      assert ts == [ts[0]] + ts[1..];
    }
  }

  /** `nodes.filter(n => n.id !== id)`. */
  function RemoveNode(ns: seq<Node>, id: Id): (r: seq<Node>)
    ensures |r| <= |ns|
  {
    if ns == [] then []
    else if ns[0].id == id then RemoveNode(ns[1..], id)
    else [ns[0]] + RemoveNode(ns[1..], id)
  }

  /** `edges.filter(e => e.source !== id && e.target !== id)`. */
  function RemoveEdgesOf(es: seq<Edge>, id: Id): (r: seq<Edge>)
    ensures |r| <= |es|
    ensures forall e | e in r :: e in es && !Touches(e, id)
    ensures forall e | e in es && !Touches(e, id) :: e in r
  {
    if es == [] then []
    else if Touches(es[0], id) then RemoveEdgesOf(es[1..], id)
    else [es[0]] + RemoveEdgesOf(es[1..], id)
  }

  /** Lists that show each other position by position carry the same ids. */
  lemma SyncedIds(ns: seq<Node>, ts: seq<Table>)
    requires Synced(ns, ts)
    ensures NodeIds(ns) == TableIds(ts)
  {
  }

  lemma SyncedCons(n: Node, t: Table, ns: seq<Node>, ts: seq<Table>)
    requires Synced(ns, ts) && n.id == t.id && n.data == Bound(t)
    ensures Synced([n] + ns, [t] + ts)
  {
  }

  /** Deleting from aligned table and node lists keeps them aligned: the node list that remains
      still shows, position by position, the tables that remain. */
  lemma {:induction false} RemoveKeepsSynced(ns: seq<Node>, ts: seq<Table>, id: Id)
    requires Synced(ns, ts)
    ensures Synced(RemoveNode(ns, id), RemoveTable(ts, id))
  {
    if ns != [] {
      var ns', ts' := ns[1..], ts[1..];
      assert Synced(ns', ts') by {
        forall i | 0 <= i < |ns'| ensures ns'[i].id == ts'[i].id && ns'[i].data == Bound(ts'[i]) {
          assert ns'[i] == ns[i + 1] && ts'[i] == ts[i + 1];
        }
      }
      RemoveKeepsSynced(ns', ts', id);
      if ns[0].id == id {
        assert RemoveNode(ns, id) == RemoveNode(ns', id);
        assert RemoveTable(ts, id) == RemoveTable(ts', id);
      } else {
        assert RemoveNode(ns, id) == [ns[0]] + RemoveNode(ns', id);
        assert RemoveTable(ts, id) == [ts[0]] + RemoveTable(ts', id);
        SyncedCons(ns[0], ts[0], RemoveNode(ns', id), RemoveTable(ts', id));
      }
    }
  }

  /** The ids left by a table delete are among the old ones and differ from the deleted id. */
  lemma RemoveTableIds(ts: seq<Table>, id: Id)
    ensures forall x | x in TableIds(RemoveTable(ts, id)) :: x in TableIds(ts) && x != id
  {
    var r := RemoveTable(ts, id);
    RemoveTableIn(ts, id);
    forall x | x in TableIds(r) ensures x in TableIds(ts) && x != id {
      var j :| 0 <= j < |r| && TableIds(r)[j] == x;
      assert r[j] in ts;
      var k :| 0 <= k < |ts| && ts[k] == r[j];
      assert TableIds(ts)[k] == x;
    }
  }

  /** Removing a table keeps the remaining ids distinct. */
  lemma RemoveTableNoDup(ts: seq<Table>, id: Id)
    requires Lists.NoDup(TableIds(ts))
    ensures Lists.NoDup(TableIds(RemoveTable(ts, id)))
    ensures id !in TableIds(RemoveTable(ts, id))
    ensures forall x | x in TableIds(RemoveTable(ts, id)) :: x in TableIds(ts)
  {
    RemoveTableIds(ts, id);
    RemoveTableIdsNoDup(ts, id);
  }

  lemma {:induction false} RemoveTableIdsNoDup(ts: seq<Table>, id: Id)
    requires Lists.NoDup(TableIds(ts))
    ensures Lists.NoDup(TableIds(RemoveTable(ts, id)))
  {
    if ts != [] {
      var ts' := ts[1..];
      assert TableIds(ts') == TableIds(ts)[1..];
      Lists.NoDupTail(TableIds(ts));
      RemoveTableIdsNoDup(ts', id);
      if ts[0].id != id {
        KeptHeadTableNoDup(ts[0], ts', id);
        assert ts == [ts[0]] + ts';
      }
    }
  }

  /** The step of `RemoveTableIdsNoDup` where the first table stays. */
  lemma KeptHeadTableNoDup(t: Table, ts: seq<Table>, id: Id)
    requires t.id != id && t.id !in TableIds(ts)
    requires Lists.NoDup(TableIds(RemoveTable(ts, id)))
    ensures Lists.NoDup(TableIds(RemoveTable([t] + ts, id)))
  {
    var rest := RemoveTable(ts, id);
    RemoveTableIds(ts, id);
    Lists.NoDupCons(t.id, TableIds(rest));
    assert ([t] + ts)[1..] == ts;
    assert RemoveTable([t] + ts, id) == [t] + rest;
    assert TableIds([t] + rest) == [t.id] + TableIds(rest);
  }

  /** A table that does not exist is deleted without effect on its list. */
  lemma {:induction false} RemoveTableAbsent(ts: seq<Table>, id: Id)
    requires id !in TableIds(ts)
    ensures RemoveTable(ts, id) == ts
  {
    if ts != [] {
      assert TableIds(ts) == [ts[0].id] + TableIds(ts[1..]);
      RemoveTableAbsent(ts[1..], id);
    }
  }

  lemma {:induction false} RemoveNodeAbsent(ns: seq<Node>, id: Id)
    requires id !in NodeIds(ns)
    ensures RemoveNode(ns, id) == ns
  {
    if ns != [] {
      assert NodeIds(ns) == [ns[0].id] + NodeIds(ns[1..]);
      RemoveNodeAbsent(ns[1..], id);
    }
  }

  lemma {:induction false} RemoveEdgesAbsent(es: seq<Edge>, id: Id)
    requires forall e | e in es :: !Touches(e, id)
    ensures RemoveEdgesOf(es, id) == es
  {
    if es != [] {
      assert es[0] in es;
      RemoveEdgesAbsent(es[1..], id);
    }
  }

  /** With distinct ids, deleting a present table drops exactly its position and keeps the
      other tables in their order. */
  lemma {:induction false} RemoveTableAt(ts: seq<Table>, k: nat)
    requires Lists.NoDup(TableIds(ts)) && k < |ts|
    ensures RemoveTable(ts, ts[k].id) == ts[..k] + ts[k + 1..]
  {
    var id := ts[k].id;
    assert TableIds(ts[1..]) == TableIds(ts)[1..];
    if k == 0 {
      assert id !in TableIds(ts)[1..];
      RemoveTableAbsent(ts[1..], id);
    } else {
      assert TableIds(ts)[0] != TableIds(ts)[k];
      RemoveTableAt(ts[1..], k - 1);
      assert ts[1..][k - 1] == ts[k];
      assert ts[1..][..k - 1] == ts[1..k];
      assert ts[1..][k..] == ts[k + 1..];
      assert ts[..k] == [ts[0]] + ts[1..k];
    }
  }

  /** The edge filter keeps the surviving edges in their order: it distributes over `+`. */
  lemma {:induction false} RemoveEdgesAppend(a: seq<Edge>, b: seq<Edge>, id: Id)
    ensures RemoveEdgesOf(a + b, id) == RemoveEdgesOf(a, id) + RemoveEdgesOf(b, id)
  {
    if a == [] {
      assert a + b == b;
    } else {
      assert (a + b)[1..] == a[1..] + b;
      RemoveEdgesAppend(a[1..], b, id);
    }
  }

  // ---------------------------------------------------------------------------------------------
  // Table and field edits

  /** `tables.map(t => t.id === tableId ? { ...t, name } : t)`. */
  function RenameTable(ts: seq<Table>, id: Id, name: string): (r: seq<Table>)
    ensures TableIds(r) == TableIds(ts)
    ensures forall i | 0 <= i < |ts| :: r[i].fields == ts[i].fields
    ensures forall i | 0 <= i < |ts| :: r[i].name == if ts[i].id == id then name else ts[i].name
  {
    seq(|ts|, i requires 0 <= i < |ts| => if ts[i].id == id then ts[i].(name := name) else ts[i])
  }

  /** `r` differs from `ts` at most in the fields of the tables with id `id`. */
  predicate OnlyFieldsOf(r: seq<Table>, ts: seq<Table>, id: Id) {
    |r| == |ts| &&
    forall i | 0 <= i < |ts| ::
      && r[i].id == ts[i].id && r[i].name == ts[i].name
      && (ts[i].id != id ==> r[i] == ts[i])
  }

  /** `t.fields.map(f => f.id === fieldId ? { ...f, [key]: value } : f)`. */
  function SetFieldValue(fs: seq<Field>, fid: Id, key: FieldKey, value: string): (r: seq<Field>)
    ensures FieldIds(r) == FieldIds(fs)
    ensures forall j | 0 <= j < |fs| && fs[j].id != fid :: r[j] == fs[j]
    ensures forall j | 0 <= j < |fs| && fs[j].id == fid ::
      && r[j].isPrimary == fs[j].isPrimary
      && r[j].name == (if key == NameKey then value else fs[j].name)
      && r[j].fieldType == (if key == TypeKey then value else fs[j].fieldType)
  {
    seq(|fs|, j requires 0 <= j < |fs| =>
      if fs[j].id != fid then fs[j]
      else match key
        case NameKey => fs[j].(name := value)
        case TypeKey => fs[j].(fieldType := value))
  }

  /** `t.fields.map(f => f.id === fieldId ? { ...f, type: value } : f)`. */
  function SetFieldType(fs: seq<Field>, fid: Id, value: string): (r: seq<Field>)
    ensures r == SetFieldValue(fs, fid, TypeKey, value)
  {
    seq(|fs|, j requires 0 <= j < |fs| => if fs[j].id == fid then fs[j].(fieldType := value) else fs[j])
  }

  /** `t.fields.map(f => f.id === fieldId ? { ...f, isPrimary: !f.isPrimary } : f)`. */
  function FlipPrimary(fs: seq<Field>, fid: Id): (r: seq<Field>)
    ensures FieldIds(r) == FieldIds(fs)
    ensures forall j | 0 <= j < |fs| && fs[j].id != fid :: r[j] == fs[j]
    ensures forall j | 0 <= j < |fs| && fs[j].id == fid ::
      && r[j].name == fs[j].name && r[j].fieldType == fs[j].fieldType
      && r[j].isPrimary == Some(!IsPrimary(fs[j]))
  {
    seq(|fs|, j requires 0 <= j < |fs| =>
      if fs[j].id == fid then fs[j].(isPrimary := Some(!IsPrimary(fs[j]))) else fs[j])
  }

  /** `t.fields.filter(f => f.id !== fieldId)`. */
  function RemoveField(fs: seq<Field>, fid: Id): (r: seq<Field>)
    ensures |r| <= |fs|
  {
    if fs == [] then []
    else if fs[0].id == fid then RemoveField(fs[1..], fid)
    else [fs[0]] + RemoveField(fs[1..], fid)
  }

  /** A field delete keeps exactly the fields with another id. */
  lemma {:induction false} RemoveFieldIn(fs: seq<Field>, fid: Id)
    ensures forall f | f in RemoveField(fs, fid) :: f in fs && f.id != fid
    ensures forall f | f in fs && f.id != fid :: f in RemoveField(fs, fid)
  {
    if fs != [] {
      RemoveFieldIn(fs[1..], fid);
      assert fs == [fs[0]] + fs[1..];
    }
  }

  /** Applies one of the field edits to the tables with id `id` and leaves the others alone. */
  function EditFields(ts: seq<Table>, id: Id, edit: seq<Field> -> seq<Field>): (r: seq<Table>)
    ensures OnlyFieldsOf(r, ts, id)
    ensures TableIds(r) == TableIds(ts)
    ensures forall i | 0 <= i < |ts| && ts[i].id == id :: r[i].fields == edit(ts[i].fields)
  {
    seq(|ts|, i requires 0 <= i < |ts| => if ts[i].id == id then ts[i].(fields := edit(ts[i].fields)) else ts[i])
  }

  /** "Add Column": a blank field at the end of the addressed table. */
  function AddField(ts: seq<Table>, id: Id, now: nat): (r: seq<Table>)
    ensures OnlyFieldsOf(r, ts, id) && TableIds(r) == TableIds(ts)
    ensures forall i | 0 <= i < |ts| && ts[i].id == id :: |r[i].fields| == |ts[i].fields| + 1
  {
    EditFields(ts, id, fs => fs + [BlankField(now)])
  }

  /** `handleFieldChange`: the name or the type of one field of the addressed table. */
  function ChangeField(ts: seq<Table>, id: Id, fid: Id, key: FieldKey, value: string): (r: seq<Table>)
    ensures OnlyFieldsOf(r, ts, id) && TableIds(r) == TableIds(ts)
    ensures forall i | 0 <= i < |ts| :: FieldIds(r[i].fields) == FieldIds(ts[i].fields)
  {
    EditFields(ts, id, fs => SetFieldValue(fs, fid, key, value))
  }

  /** `handleFieldTypeChange`: the type of one field of the addressed table. */
  function ChangeFieldType(ts: seq<Table>, id: Id, fid: Id, value: string): (r: seq<Table>)
    ensures OnlyFieldsOf(r, ts, id) && TableIds(r) == TableIds(ts)
    ensures forall i | 0 <= i < |ts| :: FieldIds(r[i].fields) == FieldIds(ts[i].fields)
  {
    EditFields(ts, id, fs => SetFieldType(fs, fid, value))
  }

  /** `handlePrimaryToggle`: the primary flag of one field of the addressed table. */
  function TogglePrimary(ts: seq<Table>, id: Id, fid: Id): (r: seq<Table>)
    ensures OnlyFieldsOf(r, ts, id) && TableIds(r) == TableIds(ts)
    ensures forall i | 0 <= i < |ts| :: FieldIds(r[i].fields) == FieldIds(ts[i].fields)
  {
    EditFields(ts, id, fs => FlipPrimary(fs, fid))
  }

  /** `handleFieldDelete`: one field of the addressed table filtered out. */
  function DeleteField(ts: seq<Table>, id: Id, fid: Id): (r: seq<Table>)
    ensures OnlyFieldsOf(r, ts, id) && TableIds(r) == TableIds(ts)
    ensures forall i | 0 <= i < |ts| :: |r[i].fields| <= |ts[i].fields|
  {
    EditFields(ts, id, fs => RemoveField(fs, fid))
  }

  /** Add Column puts one blank, non-primary field at the end of the addressed table: earlier
      fields, other tables and every name are untouched, and an absent table id changes nothing. */
  lemma AddFieldEffect(ts: seq<Table>, id: Id, now: nat)
    ensures OnlyFieldsOf(AddField(ts, id, now), ts, id)
    ensures forall i | 0 <= i < |ts| && ts[i].id == id ::
      && AddField(ts, id, now)[i].fields[..|ts[i].fields|] == ts[i].fields
      && |AddField(ts, id, now)[i].fields| == |ts[i].fields| + 1
      && AddField(ts, id, now)[i].fields[|ts[i].fields|] == Field(FieldId(now), "", "", Some(false))
    ensures id !in TableIds(ts) ==> AddField(ts, id, now) == ts
  {
    if id !in TableIds(ts) {
      assert forall i | 0 <= i < |ts| :: ts[i].id != id;
    }
  }

  /** Edits addressed to a table id that does not exist change nothing. */
  lemma EditAbsentTable(ts: seq<Table>, id: Id, name: string, edit: seq<Field> -> seq<Field>)
    requires id !in TableIds(ts)
    ensures RenameTable(ts, id, name) == ts
    ensures EditFields(ts, id, edit) == ts
  {
    assert forall i | 0 <= i < |ts| :: ts[i].id != id;
  }

  /** Field edits addressed to a field id the table does not have change nothing. */
  lemma {:induction false} EditAbsentField(fs: seq<Field>, fid: Id, key: FieldKey, value: string)
    requires fid !in FieldIds(fs)
    ensures SetFieldValue(fs, fid, key, value) == fs
    ensures FlipPrimary(fs, fid) == fs
    ensures RemoveField(fs, fid) == fs
  {
    assert forall j | 0 <= j < |fs| :: fs[j].id != fid;
    if fs != [] {
      assert FieldIds(fs[1..]) == FieldIds(fs)[1..];
      EditAbsentField(fs[1..], fid, key, value);
    }
  }

  /** Toggling twice restores whether a field is primary; an unset flag comes back as an explicit
      false. */
  lemma FlipPrimaryTwice(fs: seq<Field>, fid: Id)
    ensures FieldIds(FlipPrimary(FlipPrimary(fs, fid), fid)) == FieldIds(fs)
    ensures forall j | 0 <= j < |fs| ::
      IsPrimary(FlipPrimary(FlipPrimary(fs, fid), fid)[j]) == IsPrimary(fs[j])
    ensures forall j | 0 <= j < |fs| && fs[j].id == fid && fs[j].isPrimary == None ::
      FlipPrimary(FlipPrimary(fs, fid), fid)[j].isPrimary == Some(false)
  {
  }

  /** Several fields of one table may be primary at the same time. */
  lemma TwoPrimaryKeys()
    ensures var fs := FlipPrimary(FlipPrimary(InitialTables[0].fields, "field-1"), "field-2");
      IsPrimary(fs[0]) && IsPrimary(fs[1])
  {
  }

  /** The ids left by a field delete are among the old ones. */
  lemma {:induction false} RemoveFieldIds(fs: seq<Field>, fid: Id)
    ensures forall x | x in FieldIds(RemoveField(fs, fid)) :: x in FieldIds(fs)
  {
    var r := RemoveField(fs, fid);
    RemoveFieldIn(fs, fid);
    forall x | x in FieldIds(r) ensures x in FieldIds(fs) {
      var j :| 0 <= j < |r| && FieldIds(r)[j] == x;
      assert r[j] in fs;
      var k :| 0 <= k < |fs| && fs[k] == r[j];
      assert FieldIds(fs)[k] == x;
    }
  }

  /** Removing a field keeps the remaining field ids distinct. */
  lemma {:induction false} RemoveFieldNoDup(fs: seq<Field>, fid: Id)
    requires Lists.NoDup(FieldIds(fs))
    ensures Lists.NoDup(FieldIds(RemoveField(fs, fid)))
  {
    if fs != [] {
      var fs' := fs[1..];
      assert FieldIds(fs') == FieldIds(fs)[1..];
      Lists.NoDupTail(FieldIds(fs));
      RemoveFieldNoDup(fs', fid);
      if fs[0].id != fid {
        KeptHeadNoDup(fs[0], fs', fid);
        assert fs == [fs[0]] + fs';
      }
    }
  }

  /** The step of `RemoveFieldNoDup` where the first field stays. */
  lemma KeptHeadNoDup(f: Field, fs: seq<Field>, fid: Id)
    requires f.id != fid && f.id !in FieldIds(fs)
    requires Lists.NoDup(FieldIds(RemoveField(fs, fid)))
    ensures Lists.NoDup(FieldIds(RemoveField([f] + fs, fid)))
  {
    var rest := RemoveField(fs, fid);
    RemoveFieldIds(fs, fid);
    Lists.NoDupCons(f.id, FieldIds(rest));
    assert ([f] + fs)[1..] == fs;
    assert RemoveField([f] + fs, fid) == [f] + rest;
    assert FieldIds([f] + rest) == [f.id] + FieldIds(rest);
  }

  /** Deleting a field removes every field with that id and keeps the others. */
  lemma RemoveFieldEffect(fs: seq<Field>, fid: Id)
    ensures fid !in FieldIds(RemoveField(fs, fid))
    ensures forall f | f in fs && f.id != fid :: f in RemoveField(fs, fid)
  {
  }

  // ---------------------------------------------------------------------------------------------
  // The node projection

  /** The effect that runs whenever `tables` changes:
      `nodes.map(node => table ? { ...node, data: { ...table, callbacks } } : node)`. */
  function Refresh(ns: seq<Node>, ts: seq<Table>): (r: seq<Node>)
    ensures NodeIds(r) == NodeIds(ns) && Positions(r) == Positions(ns)
    ensures forall i | 0 <= i < |ns| && ns[i].id !in TableIds(ts) :: r[i] == ns[i]
    ensures forall i | 0 <= i < |ns| && ns[i].id in TableIds(ts) ::
      r[i].data == Bound(FindTable(ts, ns[i].id).value)
  {
    seq(|ns|, i requires 0 <= i < |ns| =>
      match FindTable(ts, ns[i].id)
      case None => ns[i]
      case Some(t) => ns[i].(data := Bound(t)))
  }

  /** The node list handed to the canvas on every render:
      `nodes.map(node => ({ ...node, data: { ...tables.find(...), callbacks } }))`;
      a node without a table gets no table data. */
  function Render(ns: seq<Node>, ts: seq<Table>): (r: seq<Node>)
    ensures NodeIds(r) == NodeIds(ns) && Positions(r) == Positions(ns)
    ensures forall i | 0 <= i < |ns| && ns[i].id !in TableIds(ts) :: r[i].data == Blank
  {
    seq(|ns|, i requires 0 <= i < |ns| =>
      match FindTable(ts, ns[i].id)
      case None => ns[i].(data := Blank)
      case Some(t) => ns[i].(data := Bound(t)))
  }

  /** Node i and table i have the same id, and the table ids are distinct. */
  predicate Aligned(ns: seq<Node>, ts: seq<Table>) {
    NodeIds(ns) == TableIds(ts) && Lists.NoDup(TableIds(ts))
  }

  /** On aligned lists the refresh binds node i to table i and keeps every id and position. */
  lemma RefreshAligned(ns: seq<Node>, ts: seq<Table>)
    requires Aligned(ns, ts)
    ensures Synced(Refresh(ns, ts), ts)
    ensures forall i | 0 <= i < |ns| :: Refresh(ns, ts)[i] == Node(ns[i].id, ns[i].position, Bound(ts[i]))
  {
    forall i | 0 <= i < |ns| ensures Refresh(ns, ts)[i] == Node(ns[i].id, ns[i].position, Bound(ts[i])) {
      assert ns[i].id == TableIds(ts)[i];
      FindTableAt(ts, i);
    }
  }

  /** Once the nodes show the tables, rendering draws exactly the stored nodes:
      same ids, same positions, same order, the current tables as data. */
  lemma RenderSynced(ns: seq<Node>, ts: seq<Table>)
    requires Synced(ns, ts) && Lists.NoDup(TableIds(ts))
    ensures Render(ns, ts) == ns
    ensures Refresh(ns, ts) == ns
  {
    forall i | 0 <= i < |ns| ensures Render(ns, ts)[i] == ns[i] && Refresh(ns, ts)[i] == ns[i] {
      FindTableAt(ts, i);
    }
  }

  // ---------------------------------------------------------------------------------------------
  // Relationships

  /** The pending edge a connect gesture proposes: cardinality '1:1' in both places. */
  function ProposedEdge(c: Connection, now: nat): (e: Edge)
    ensures e.source == c.source && e.target == c.target
    ensures e.edgeLabel == OneToOne && e.relType == OneToOne
  {
    Edge(RelationshipId(c, now), c.source, c.target, OneToOne, OneToOne)
  }

  /** Submitting the chooser: `[...eds, { ...pendingEdge, label: k, data: { relType: k } }]`,
      when there is a pending edge. */
  function Commit(es: seq<Edge>, pending: Option<Edge>, k: Cardinality): seq<Edge> {
    match pending
    case None => es
    case Some(p) => es + [p.(edgeLabel := k, relType := k)]
  }

  /** A commit adds exactly one edge, with the chosen cardinality and the pending edge's id and
      endpoints, after the existing ones; with nothing pending it adds nothing. */
  lemma CommitEffect(es: seq<Edge>, pending: Option<Edge>, k: Cardinality)
    ensures pending.None? ==> Commit(es, pending, k) == es
    ensures pending.Some? ==>
      var r := Commit(es, pending, k);
      && |r| == |es| + 1 && r[..|es|] == es
      && r[|es|].id == pending.value.id
      && r[|es|].source == pending.value.source && r[|es|].target == pending.value.target
      && r[|es|].edgeLabel == k && r[|es|].relType == k
  {
  }

  /** The edit form's submit: `eds.map(edge => edge.id === editingEdgeId ? { ...edge, label: k,
      data: { relType: k } } : edge)`; with no edge being edited nothing matches. */
  function Relabel(es: seq<Edge>, editing: Option<Id>, k: Cardinality): (r: seq<Edge>)
    ensures |r| == |es|
    ensures forall i | 0 <= i < |es| ::
      r[i].id == es[i].id && r[i].source == es[i].source && r[i].target == es[i].target
    ensures forall i | 0 <= i < |es| :: editing != Some(es[i].id) ==> r[i] == es[i]
    ensures forall i | 0 <= i < |es| :: editing == Some(es[i].id) ==> r[i].edgeLabel == k && r[i].relType == k
  {
    seq(|es|, i requires 0 <= i < |es| =>
      if editing == Some(es[i].id) then es[i].(edgeLabel := k, relType := k) else es[i])
  }

  /** Relabelling never moves an edge to other tables. */
  lemma RelabelWithin(es: seq<Edge>, editing: Option<Id>, k: Cardinality, ts: seq<Table>)
    requires EdgesWithin(es, ts)
    ensures EdgesWithin(Relabel(es, editing, k), ts)
  {
    var r := Relabel(es, editing, k);
    forall e | e in r ensures e.source in TableIds(ts) && e.target in TableIds(ts) {
      var i :| 0 <= i < |r| && r[i] == e;
      assert es[i] in es;
    }
  }

  /** Deleting a table as the source does it: the pending edge is left alone. */
  function DeleteTableAsWritten(ts: seq<Table>, es: seq<Edge>, pending: Option<Edge>, id: Id)
    : (r: (seq<Table>, seq<Edge>, Option<Edge>))
    ensures r.2 == pending
  {
    (RemoveTable(ts, id), RemoveEdgesOf(es, id), pending)
  }

  /** With the source's delete, a relationship proposed towards a table, then the table's
      deletion, then the chooser's submit leaves an edge whose source table no longer exists. */
  lemma DeleteThenSubmitAsWrittenDangles()
    ensures var ts := InitialTables + [NewTable(2, 2)];
      var pending := Some(ProposedEdge(Connection("table-1", TableId(2)), 3));
      && EdgesWithin([], ts) && PendingWithin(pending, ts)
      && var (ts', es', pending') := DeleteTableAsWritten(ts, [], pending, "table-1");
         !EdgesWithin(Commit(es', pending', OneToMany), ts')
  {
    var ts := InitialTables + [NewTable(2, 2)];
    assert TableIds(ts) == ["table-1", TableId(2)];
    var pending := Some(ProposedEdge(Connection("table-1", TableId(2)), 3));
    var (ts', es', pending') := DeleteTableAsWritten(ts, [], pending, "table-1");
    assert ts' == [NewTable(2, 2)] by {
      assert TableId(2) == "table-2";
      calc {
        RemoveTable(ts, "table-1");
        RemoveTable(ts[1..], "table-1");
        [ts[1]] + RemoveTable(ts[2..], "table-1");
      }
    }
    assert "table-1" != TableId(2) by { assert TableId(2) == "table-2"; }
    assert TableIds(ts') == [TableId(2)];
    var c := Commit(es', pending', OneToMany);
    assert c[0].source == "table-1";
    assert c[0] in c;
  }

  /** Whenever every edge joins existing tables, the delete as written leaves the committed
      edges within the remaining tables, and leaves the pending edge within them exactly when
      there is none or it does not touch the deleted table. */
  lemma {:induction false} DeleteTableAsWrittenPendingIff(ts: seq<Table>, es: seq<Edge>, pending: Option<Edge>, id: Id)
    requires EdgesWithin(es, ts) && PendingWithin(pending, ts)
    ensures var r := DeleteTableAsWritten(ts, es, pending, id);
      && EdgesWithin(r.1, r.0)
      && (PendingWithin(r.2, r.0) <==> pending.None? || !Touches(pending.value, id))
  {
    RemoveTableMembers(ts, id);
  }

  /** The cascade as this model performs it: a pending edge that touches the deleted table is
      discarded together with the committed edges that do. */
  function DiscardPendingOf(pending: Option<Edge>, id: Id): (r: Option<Edge>)
    ensures r.Some? ==> r == pending && !Touches(r.value, id)
    ensures pending.Some? && !Touches(pending.value, id) ==> r == pending
  {
    if pending.Some? && Touches(pending.value, id) then None else pending
  }

  /** Deleting a table leaves no edge, committed or pending, pointing at a missing table. */
  lemma DeleteKeepsIntegrity(ts: seq<Table>, es: seq<Edge>, pending: Option<Edge>, id: Id)
    requires Lists.NoDup(TableIds(ts))
    requires EdgesWithin(es, ts) && PendingWithin(pending, ts)
    ensures EdgesWithin(RemoveEdgesOf(es, id), RemoveTable(ts, id))
    ensures PendingWithin(DiscardPendingOf(pending, id), RemoveTable(ts, id))
    ensures forall e | e in RemoveEdgesOf(es, id) :: !Touches(e, id)
  {
    RemoveTableMembers(ts, id);
  }

  /** The editor's invariant: the nodes show the tables position by position, table ids and
      each table's field ids are distinct, and every edge and the pending edge join two
      existing tables. */
  ghost predicate Integrity(ns: seq<Node>, ts: seq<Table>, es: seq<Edge>, pending: Option<Edge>) {
    && Synced(ns, ts)
    && Lists.NoDup(TableIds(ts))
    && (forall t | t in ts :: Lists.NoDup(FieldIds(t.fields)))
    && EdgesWithin(es, ts)
    && PendingWithin(pending, ts)
  }

  /** The corrected table delete keeps the invariant, and the remaining nodes need no refresh. */
  lemma DeleteIntegrity(ns: seq<Node>, ts: seq<Table>, es: seq<Edge>, pending: Option<Edge>, id: Id)
    requires Integrity(ns, ts, es, pending)
    ensures Integrity(RemoveNode(ns, id), RemoveTable(ts, id), RemoveEdgesOf(es, id), DiscardPendingOf(pending, id))
    ensures Refresh(RemoveNode(ns, id), RemoveTable(ts, id)) == RemoveNode(ns, id)
  {
    DeleteKeepsIntegrity(ts, es, pending, id);
    RemoveKeepsSynced(ns, ts, id);
    RemoveTableNoDup(ts, id);
    RemoveTableIn(ts, id);
    RenderSynced(RemoveNode(ns, id), RemoveTable(ts, id));
  }

  /** Appending a table with a fresh id and distinct field ids, and a blank node for it, keeps
      the invariant once the refresh has bound the new node to its table. */
  lemma AddIntegrity(ns: seq<Node>, ts: seq<Table>, es: seq<Edge>, pending: Option<Edge>, t: Table, pos: Point)
    requires Integrity(ns, ts, es, pending)
    requires t.id !in TableIds(ts) && Lists.NoDup(FieldIds(t.fields))
    ensures var placed := ns + [Node(t.id, pos, Blank)];
      && Refresh(placed, ts + [t]) == ns + [Node(t.id, pos, Bound(t))]
      && Integrity(ns + [Node(t.id, pos, Bound(t))], ts + [t], es, pending)
  {
    var placed := ns + [Node(t.id, pos, Blank)];
    var ts' := ts + [t];
    assert TableIds(ts') == TableIds(ts) + [t.id];
    SyncedIds(ns, ts);
    assert NodeIds(placed) == NodeIds(ns) + [t.id];
    RefreshAligned(placed, ts');
    var r := Refresh(placed, ts');
    assert r == ns + [Node(t.id, pos, Bound(t))] by {
      forall i | 0 <= i < |r| ensures r[i] == (ns + [Node(t.id, pos, Bound(t))])[i] {
        if i < |ns| {
          assert placed[i] == ns[i];
        }
      }
    }
  }

  /** The ids left by a delete are the old ids other than the deleted one. */
  lemma RemoveTableMembers(ts: seq<Table>, id: Id)
    ensures forall x | x in TableIds(ts) && x != id :: x in TableIds(RemoveTable(ts, id))
    ensures id !in TableIds(RemoveTable(ts, id))
  {
    var r := RemoveTable(ts, id);
    RemoveTableIn(ts, id);
    forall x | x in TableIds(ts) && x != id ensures x in TableIds(r) {
      var i :| 0 <= i < |ts| && ts[i].id == x;
      assert ts[i] in ts;
      var j :| 0 <= j < |r| && r[j] == ts[i];
      assert TableIds(r)[j] == x;
    }
  }

  /** Deleting a table that does not exist changes neither tables, nodes, edges nor the pending
      edge, provided the slots are consistent. */
  lemma DeleteAbsentTable(ts: seq<Table>, ns: seq<Node>, es: seq<Edge>, pending: Option<Edge>, id: Id)
    requires id !in TableIds(ts) && NodeIds(ns) == TableIds(ts)
    requires EdgesWithin(es, ts) && PendingWithin(pending, ts)
    ensures RemoveTable(ts, id) == ts && RemoveNode(ns, id) == ns
    ensures RemoveEdgesOf(es, id) == es && DiscardPendingOf(pending, id) == pending
  {
    RemoveTableAbsent(ts, id);
    RemoveNodeAbsent(ns, id);
    RemoveEdgesAbsent(es, id);
  }

  // ---------------------------------------------------------------------------------------------
  // The component's state

  class Editor {
    var tables: seq<Table>
    var nodes: seq<Node>
    var edges: seq<Edge>
    var pendingEdge: Option<Edge>
    var pendingRelType: Cardinality
    var editingEdgeId: Option<Id>
    var editingRelType: Cardinality

    /** Node i shows table i, table ids are distinct, field ids are distinct within each table,
        and every committed or pending edge joins two existing tables. */
    ghost predicate Valid()
      reads this
    {
      Integrity(nodes, tables, edges, pendingEdge)
    }

    /** Mounting: the initial table and node, then the refresh effect's first run. */
    constructor ()
      ensures Valid()
      ensures tables == InitialTables
      ensures nodes == [Node("table-1", Point(100, 100), Bound(InitialTables[0]))]
      ensures edges == [] && pendingEdge == None && editingEdgeId == None
      ensures pendingRelType == OneToOne && editingRelType == OneToOne
    {
      tables := InitialTables;
      nodes := Refresh(InitialNodes, InitialTables);
      edges := [];
      pendingEdge := None;
      pendingRelType := OneToOne;
      editingEdgeId := None;
      editingRelType := OneToOne;
      new;
      assert TableIds(InitialTables) == ["table-1"];
      assert FieldIds(InitialTables[0].fields) == ["field-1", "field-2"];
      RefreshAligned(InitialNodes, InitialTables);
    }

    /** "Add Table": a new table at the end and its node at the next staggered position. */
    method AddTable(now: nat, fieldNow: nat)
      requires Valid()
      requires TableId(now) !in TableIds(tables)
      modifies this
      ensures Valid()
      ensures tables == old(tables) + [NewTable(now, fieldNow)]
      ensures nodes == old(nodes) + [Node(TableId(now), NewNodePosition(|old(nodes)|), Bound(NewTable(now, fieldNow)))]
      ensures edges == old(edges) && pendingEdge == old(pendingEdge) && pendingRelType == old(pendingRelType)
      ensures editingEdgeId == old(editingEdgeId) && editingRelType == old(editingRelType)
    {
      var t := NewTable(now, fieldNow);
      var placed := nodes + [Node(t.id, NewNodePosition(|nodes|), Blank)];
      assert FieldIds(t.fields) == [FieldId(fieldNow)];
      AddIntegrity(nodes, tables, edges, pendingEdge, t, NewNodePosition(|nodes|));
      tables := tables + [t];
      nodes := Refresh(placed, tables);
    }

    /** Deleting a table removes it, its node, every edge touching it and a pending edge
        touching it, keeping the order of what remains. */
    method DeleteTable(id: Id)
      requires Valid()
      modifies this
      ensures Valid()
      ensures tables == RemoveTable(old(tables), id)
      ensures nodes == RemoveNode(old(nodes), id)
      ensures edges == RemoveEdgesOf(old(edges), id)
      ensures pendingEdge == DiscardPendingOf(old(pendingEdge), id)
      ensures pendingRelType == old(pendingRelType)
      ensures editingEdgeId == old(editingEdgeId) && editingRelType == old(editingRelType)
    {
      DeleteIntegrity(nodes, tables, edges, pendingEdge, id);
      tables := RemoveTable(tables, id);
      edges := RemoveEdgesOf(edges, id);
      pendingEdge := DiscardPendingOf(pendingEdge, id);
      nodes := Refresh(RemoveNode(nodes, id), tables);
    }

    /** A table-level edit that keeps ids and names of the fields list fixed: the nodes keep their
        ids and positions and are rebound to the new tables. */
    method ApplyTableEdit(r: seq<Table>)
      requires Valid()
      requires TableIds(r) == TableIds(tables)
      requires forall t | t in r :: Lists.NoDup(FieldIds(t.fields))
      modifies this
      ensures Valid()
      ensures tables == r
      ensures nodes == Refresh(old(nodes), r)
      ensures NodeIds(nodes) == NodeIds(old(nodes)) && Positions(nodes) == Positions(old(nodes))
      ensures edges == old(edges) && pendingEdge == old(pendingEdge) && pendingRelType == old(pendingRelType)
      ensures editingEdgeId == old(editingEdgeId) && editingRelType == old(editingRelType)
    {
      tables := r;
      RefreshAligned(nodes, tables);
      nodes := Refresh(nodes, tables);
    }

    method RenameTableTo(id: Id, name: string)
      requires Valid()
      modifies this
      ensures Valid()
      ensures tables == RenameTable(old(tables), id, name)
      ensures NodeIds(nodes) == NodeIds(old(nodes)) && Positions(nodes) == Positions(old(nodes))
      ensures edges == old(edges) && pendingEdge == old(pendingEdge) && pendingRelType == old(pendingRelType)
      ensures editingEdgeId == old(editingEdgeId) && editingRelType == old(editingRelType)
    {
      var r := RenameTable(tables, id, name);
      forall t | t in r ensures Lists.NoDup(FieldIds(t.fields)) {
        var i :| 0 <= i < |r| && r[i] == t;
        assert tables[i] in tables;
      }
      ApplyTableEdit(r);
    }

    /** Field edits, other than Add Column, keep the field ids of every table. */
    method ApplyFieldEdit(id: Id, edit: seq<Field> -> seq<Field>)
      requires Valid()
      requires forall fs: seq<Field> :: Lists.NoDup(FieldIds(fs)) ==> Lists.NoDup(FieldIds(edit(fs)))
      modifies this
      ensures Valid()
      ensures tables == EditFields(old(tables), id, edit)
      ensures NodeIds(nodes) == NodeIds(old(nodes)) && Positions(nodes) == Positions(old(nodes))
      ensures edges == old(edges) && pendingEdge == old(pendingEdge) && pendingRelType == old(pendingRelType)
      ensures editingEdgeId == old(editingEdgeId) && editingRelType == old(editingRelType)
    {
      var r := EditFields(tables, id, edit);
      forall t | t in r ensures Lists.NoDup(FieldIds(t.fields)) {
        var i :| 0 <= i < |r| && r[i] == t;
        assert tables[i] in tables;
      }
      ApplyTableEdit(r);
    }

    method AddFieldTo(id: Id, now: nat)
      requires Valid()
      requires forall t | t in tables && t.id == id :: FieldId(now) !in FieldIds(t.fields)
      modifies this
      ensures Valid()
      ensures tables == AddField(old(tables), id, now)
      ensures NodeIds(nodes) == NodeIds(old(nodes)) && Positions(nodes) == Positions(old(nodes))
      ensures edges == old(edges) && pendingEdge == old(pendingEdge) && pendingRelType == old(pendingRelType)
      ensures editingEdgeId == old(editingEdgeId) && editingRelType == old(editingRelType)
    {
      var r := AddField(tables, id, now);
      forall t | t in r ensures Lists.NoDup(FieldIds(t.fields)) {
        var i :| 0 <= i < |r| && r[i] == t;
        assert tables[i] in tables;
        if tables[i].id == id {
          assert FieldIds(t.fields) == FieldIds(tables[i].fields) + [FieldId(now)];
        }
      }
      ApplyTableEdit(r);
    }

    method ChangeFieldOf(id: Id, fid: Id, key: FieldKey, value: string)
      requires Valid()
      modifies this
      ensures Valid()
      ensures tables == ChangeField(old(tables), id, fid, key, value)
      ensures NodeIds(nodes) == NodeIds(old(nodes)) && Positions(nodes) == Positions(old(nodes))
      ensures edges == old(edges) && pendingEdge == old(pendingEdge) && pendingRelType == old(pendingRelType)
      ensures editingEdgeId == old(editingEdgeId) && editingRelType == old(editingRelType)
    {
      ApplyFieldEdit(id, fs => SetFieldValue(fs, fid, key, value));
    }

    method ChangeFieldTypeOf(id: Id, fid: Id, value: string)
      requires Valid()
      modifies this
      ensures Valid()
      ensures tables == ChangeFieldType(old(tables), id, fid, value)
      ensures NodeIds(nodes) == NodeIds(old(nodes)) && Positions(nodes) == Positions(old(nodes))
      ensures edges == old(edges) && pendingEdge == old(pendingEdge) && pendingRelType == old(pendingRelType)
      ensures editingEdgeId == old(editingEdgeId) && editingRelType == old(editingRelType)
    {
      ApplyFieldEdit(id, fs => SetFieldType(fs, fid, value));
    }

    method TogglePrimaryOf(id: Id, fid: Id)
      requires Valid()
      modifies this
      ensures Valid()
      ensures tables == TogglePrimary(old(tables), id, fid)
      ensures NodeIds(nodes) == NodeIds(old(nodes)) && Positions(nodes) == Positions(old(nodes))
      ensures edges == old(edges) && pendingEdge == old(pendingEdge) && pendingRelType == old(pendingRelType)
      ensures editingEdgeId == old(editingEdgeId) && editingRelType == old(editingRelType)
    {
      ApplyFieldEdit(id, fs => FlipPrimary(fs, fid));
    }

    method DeleteFieldOf(id: Id, fid: Id)
      requires Valid()
      modifies this
      ensures Valid()
      ensures tables == DeleteField(old(tables), id, fid)
      ensures NodeIds(nodes) == NodeIds(old(nodes)) && Positions(nodes) == Positions(old(nodes))
      ensures edges == old(edges) && pendingEdge == old(pendingEdge) && pendingRelType == old(pendingRelType)
      ensures editingEdgeId == old(editingEdgeId) && editingRelType == old(editingRelType)
    {
      forall fs: seq<Field> | Lists.NoDup(FieldIds(fs)) ensures Lists.NoDup(FieldIds(RemoveField(fs, fid))) {
        RemoveFieldNoDup(fs, fid);
      }
      ApplyFieldEdit(id, fs => RemoveField(fs, fid));
    }

    /** A connect gesture between two tables on the canvas proposes a '1:1' edge; the committed
        edges stay as they are and a second gesture replaces the proposal. */
    method Connect(c: Connection, now: nat)
      requires Valid()
      requires c.source in TableIds(tables) && c.target in TableIds(tables)
      modifies this
      ensures Valid()
      ensures pendingEdge == Some(ProposedEdge(c, now)) && pendingRelType == OneToOne
      ensures tables == old(tables) && nodes == old(nodes) && edges == old(edges)
      ensures editingEdgeId == old(editingEdgeId) && editingRelType == old(editingRelType)
    {
      pendingEdge := Some(ProposedEdge(c, now));
      pendingRelType := OneToOne;
    }

    /** The chooser's select for a new relationship. */
    method ChoosePendingRelType(k: Cardinality)
      requires Valid()
      modifies this
      ensures Valid()
      ensures pendingRelType == k
      ensures tables == old(tables) && nodes == old(nodes) && edges == old(edges) && pendingEdge == old(pendingEdge)
      ensures editingEdgeId == old(editingEdgeId) && editingRelType == old(editingRelType)
    {
      pendingRelType := k;
    }

    /** The chooser's submit commits the pending edge with the chosen cardinality. */
    method SubmitRelType()
      requires Valid()
      modifies this
      ensures Valid()
      ensures edges == Commit(old(edges), old(pendingEdge), old(pendingRelType))
      ensures pendingEdge == None
      ensures tables == old(tables) && nodes == old(nodes) && pendingRelType == old(pendingRelType)
      ensures editingEdgeId == old(editingEdgeId) && editingRelType == old(editingRelType)
    {
      if pendingEdge.Some? {
        edges := Commit(edges, pendingEdge, pendingRelType);
        pendingEdge := None;
      }
    }

    /** Clicking an edge opens the edit form, seeded with the edge's cardinality. */
    method EdgeClick(e: Edge)
      requires Valid()
      modifies this
      ensures Valid()
      ensures editingEdgeId == Some(e.id) && editingRelType == e.relType
      ensures tables == old(tables) && nodes == old(nodes) && edges == old(edges)
      ensures pendingEdge == old(pendingEdge) && pendingRelType == old(pendingRelType)
    {
      editingEdgeId := Some(e.id);
      editingRelType := e.relType;
    }

    /** The edit form's select. */
    method ChooseEditingRelType(k: Cardinality)
      requires Valid()
      modifies this
      ensures Valid()
      ensures editingRelType == k
      ensures tables == old(tables) && nodes == old(nodes) && edges == old(edges)
      ensures pendingEdge == old(pendingEdge) && pendingRelType == old(pendingRelType)
      ensures editingEdgeId == old(editingEdgeId)
    {
      editingRelType := k;
    }

    /** The edit form's submit relabels the edited edge and closes the form. */
    method SubmitEditRelType()
      requires Valid()
      modifies this
      ensures Valid()
      ensures edges == Relabel(old(edges), old(editingEdgeId), old(editingRelType))
      ensures editingEdgeId == None && editingRelType == old(editingRelType)
      ensures tables == old(tables) && nodes == old(nodes)
      ensures pendingEdge == old(pendingEdge) && pendingRelType == old(pendingRelType)
    {
      RelabelWithin(edges, editingEdgeId, editingRelType, tables);
      edges := Relabel(edges, editingEdgeId, editingRelType);
      editingEdgeId := None;
    }

    /** Continue hands the current tables and committed edges to the host, then moves on. */
    method Continue(hasSetData: bool) returns (calls: seq<HostCall<Schema>>)
      ensures |calls| == if hasSetData then 2 else 1
      ensures calls[|calls| - 1] == OnNext
      ensures hasSetData <==> SetData(Schema(tables, edges)) in calls
    {
      calls := SetDataThenNext(hasSetData, Schema(tables, edges));
    }
  }
}
