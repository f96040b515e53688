// Warming up the pipeline tree (dorian/experiment/store.py) while upserts go on.
module WarmUp {
  datatype Row = Row(id: string, dag: int)

  // The background load: not begun, inserting fetched rows, draining the backlog, and its two ends.
  datatype Loader = Idle | Building(todo: seq<Row>) | Draining(todo: seq<Row>) | Ready | Failed

  // An upsert of this process: its row is committed, it is inserting into the published tree, or it is over.
  datatype Place = Committed | Adding | Over | Raised

  datatype Upsert = Upsert(row: Row, at: Place)

  // lost is what the drain reports as failed; fetched, ours and ever are history: the rows of the load's snapshot,
  // the ids this process has committed, and every row ever committed.
  datatype State = State(rows: map<string, int>, loader: Loader, tree: seq<Row>, size: nat, published: bool,
                         pending: seq<Row>, upserts: seq<Upsert>, lost: set<string>,
                         fetched: seq<Row>, ours: set<string>, ever: set<Row>)

  datatype Step =
    | Foreign(row: Row)
    | Commit(row: Row)
    | Route(u: nat)
    | AddToTree(u: nat, ok: bool)
    | Fetch(snapshot: seq<Row>)
    | BuildOne(ok: bool)
    | Publish
    | DrainOne(ok: bool)
    | DrainEnd

  function Ids(rows: seq<Row>): set<string> {
    set i | 0 <= i < |rows| :: rows[i].id
  }

  /** The select returns each row once, in some order. */
  predicate IsSnapshot(rows: map<string, int>, snapshot: seq<Row>) {
    && Ids(snapshot) == rows.Keys
    && forall i :: 0 <= i < |snapshot| ==> snapshot[i].id in rows && rows[snapshot[i].id] == snapshot[i].dag
  }

  predicate Enabled(s: State, e: Step) {
    match e
    case Foreign(_) => true
    case Commit(_) => true
    case Route(u) => u < |s.upserts| && s.upserts[u].at == Committed
    case AddToTree(u, _) => u < |s.upserts| && s.upserts[u].at == Adding
    case Fetch(snapshot) => s.loader == Idle && IsSnapshot(s.rows, snapshot)
    case BuildOne(_) => s.loader.Building? && s.loader.todo != []
    case Publish => s.loader == Building([])
    case DrainOne(_) => s.loader.Draining? && s.loader.todo != []
    case DrainEnd => s.loader == Draining([])
  }

  /** The tree's add: an id that is there already is skipped. */
  function TreeAdd(s: State, row: Row): State {
    if row.id in Ids(s.tree) then s else s.(tree := s.tree + [row], size := s.size + 1)
  }

  function Write(s: State, row: Row): State {
    s.(rows := s.rows[row.id := row.dag], ever := s.ever + {row})
  }

  function To(s: State, u: nat, at: Place): State
    requires u < |s.upserts|
  {
    s.(upserts := s.upserts[u := Upsert(s.upserts[u].row, at)])
  }

  function Do(s: State, e: Step): State
    requires Enabled(s, e)
  {
    match e
    case Foreign(row) => Write(s, row)
    case Commit(row) => Write(s, row).(upserts := s.upserts + [Upsert(row, Committed)], ours := s.ours + {row.id})
    case Route(u) =>
      if s.published then To(s, u, Adding) else To(s, u, Over).(pending := s.pending + [s.upserts[u].row])
    case AddToTree(u, ok) => if ok then To(TreeAdd(s, s.upserts[u].row), u, Over) else To(s, u, Raised)
    case Fetch(snapshot) => s.(loader := Building(snapshot), fetched := snapshot)
    case BuildOne(ok) =>
      if ok then TreeAdd(s, s.loader.todo[0]).(loader := Building(s.loader.todo[1..])) else s.(loader := Failed)
    case Publish => s.(loader := Draining(s.pending), pending := [], published := true)
    case DrainOne(ok) =>
      var rest := Draining(s.loader.todo[1..]);
      if ok then TreeAdd(s, s.loader.todo[0]).(loader := rest)
      else s.(loader := rest, lost := s.lost + {s.loader.todo[0].id})
    case DrainEnd => s.(loader := Ready)
  }

  ghost predicate Runs(s: State, es: seq<Step>, t: State)
    decreases |es|
  {
    if es == [] then t == s else Enabled(s, es[0]) && Runs(Do(s, es[0]), es[1..], t)
  }

  /** The table may hold rows already; nothing else has happened. */
  predicate Start(s: State) {
    && s.loader == Idle && s.tree == s.pending == s.fetched == [] && s.size == 0 && !s.published
    && s.upserts == [] && s.lost == s.ours == {}
    && forall id :: id in s.rows ==> Row(id, s.rows[id]) in s.ever
  }

  // ---- the invariant -------------------------------------------------------------------------

  predicate DistinctIds(rows: seq<Row>) {
    forall i, j :: 0 <= i < j < |rows| ==> rows[i].id != rows[j].id
  }

  function Todo(s: State): seq<Row> {
    if s.loader.Building? || s.loader.Draining? then s.loader.todo else []
  }

  /** An upsert that still has the id in hand, or has told its caller that it failed. */
  predicate InHand(s: State, id: string) {
    exists u :: 0 <= u < |s.upserts| && s.upserts[u].row.id == id && s.upserts[u].at != Over
  }

  /** No upsert is lost: unless the load failed, an id of ours is in the tree, on its way there, or reported. */
  predicate Accounted(s: State, id: string) {
    s.loader == Failed || id in Ids(s.tree) || id in Ids(Todo(s)) || id in Ids(s.pending) || InHand(s, id) ||
      id in s.lost
  }

  ghost predicate NoLostUpsert(s: State) {
    forall id :: id in s.ours ==> Accounted(s, id)
  }

  predicate Shape(s: State) {
    && (s.published <==> s.loader.Draining? || s.loader.Ready?)
    && (s.published ==> s.pending == [])
    && (s.loader.Idle? ==> s.tree == [])
    && DistinctIds(s.tree) && s.size == |s.tree|
  }

  predicate FetchedKept(s: State) {
    s.loader.Building? || s.published ==>
      Ids(s.fetched) <= Ids(s.tree) + if s.loader.Building? then Ids(s.loader.todo) else {}
  }

  /** What is in the tree or on its way there was fetched or is ours. */
  predicate OnlyKnown(s: State) {
    && Ids(s.tree) <= Ids(s.fetched) + s.ours
    && Ids(Todo(s)) <= Ids(s.fetched) + s.ours
    && Ids(s.pending) <= s.ours
    && forall u :: 0 <= u < |s.upserts| ==> s.upserts[u].row.id in s.ours
  }

  predicate AllEver(rows: seq<Row>, ever: set<Row>) {
    forall i :: 0 <= i < |rows| ==> rows[i] in ever
  }

  /** Every row anywhere is one that was committed. */
  predicate Genuine(s: State) {
    && AllEver(s.tree, s.ever) && AllEver(Todo(s), s.ever) && AllEver(s.pending, s.ever)
    && (forall u :: 0 <= u < |s.upserts| ==> s.upserts[u].row in s.ever)
    && (forall id :: id in s.rows ==> Row(id, s.rows[id]) in s.ever)
  }

  ghost predicate Inv(s: State) {
    Shape(s) && NoLostUpsert(s) && FetchedKept(s) && OnlyKnown(s) && Genuine(s)
  }

  lemma IdsSnoc(rows: seq<Row>, row: Row)
    ensures Ids(rows + [row]) == Ids(rows) + {row.id}
  {
    assert (rows + [row])[|rows|] == row;
    assert forall i :: 0 <= i < |rows| ==> (rows + [row])[i] == rows[i];
  }

  lemma IdsHead(rows: seq<Row>)
    requires rows != []
    ensures Ids(rows) == {rows[0].id} + Ids(rows[1..])
  {
    assert forall i :: 0 < i < |rows| ==> rows[i] == rows[1..][i - 1];
  }

  /** Adding puts the id in the tree, once, and changes no other entry. */
  lemma TreeAddIs(s: State, row: Row)
    ensures var t := TreeAdd(s, row); Ids(t.tree) == Ids(s.tree) + {row.id} && t == s.(tree := t.tree, size := t.size)
    ensures DistinctIds(s.tree) ==> DistinctIds(TreeAdd(s, row).tree)
    ensures s.size == |s.tree| ==> TreeAdd(s, row).size == |TreeAdd(s, row).tree|
    ensures AllEver(s.tree, s.ever) && row in s.ever ==> AllEver(TreeAdd(s, row).tree, s.ever)
  {
    IdsSnoc(s.tree, row);
  }

  lemma ToKeeps(s: State, u: nat, at: Place, id: string)
    requires u < |s.upserts|
    ensures InHand(s, id) && s.upserts[u].row.id != id ==> InHand(To(s, u, at), id)
    ensures at != Over && s.upserts[u].row.id == id ==> InHand(To(s, u, at), id)
  {
    if InHand(s, id) && s.upserts[u].row.id != id {
      var v :| 0 <= v < |s.upserts| && s.upserts[v].row.id == id && s.upserts[v].at != Over;
      assert To(s, u, at).upserts[v] == s.upserts[v];
    }
    assert To(s, u, at).upserts[u].row == s.upserts[u].row;
  }

  lemma CommitInv(s: State, row: Row)
    requires Inv(s)
    ensures Inv(Do(s, Commit(row)))
  {
    var t := Do(s, Commit(row));
    forall id | id in t.ours ensures Accounted(t, id) {
      if id == row.id {
        assert t.upserts[|s.upserts|] == Upsert(row, Committed);
      } else if InHand(s, id) {
        var v :| 0 <= v < |s.upserts| && s.upserts[v].row.id == id && s.upserts[v].at != Over;
        assert t.upserts[v] == s.upserts[v];
      }
    }
  }

  lemma RouteInv(s: State, u: nat)
    requires Inv(s) && Enabled(s, Route(u))
    ensures Inv(Do(s, Route(u)))
  {
    var t := Do(s, Route(u));
    IdsSnoc(s.pending, s.upserts[u].row);
    forall id | id in t.ours ensures Accounted(t, id) {
      assert Accounted(s, id);
      ToKeeps(s, u, if s.published then Adding else Over, id);
      if InHand(s, id) && s.upserts[u].row.id != id {
        assert InHand(To(s, u, if s.published then Adding else Over), id);
      }
    }
  }

  lemma AddToTreeInv(s: State, u: nat, ok: bool)
    requires Inv(s) && Enabled(s, AddToTree(u, ok)) && s.published
    ensures Inv(Do(s, AddToTree(u, ok)))
  {
    var row := s.upserts[u].row;
    var mid := if ok then TreeAdd(s, row) else s;
    var t := Do(s, AddToTree(u, ok));
    TreeAddIs(s, row);
    forall id | id in t.ours ensures Accounted(t, id) {
      assert Accounted(s, id);
      ToKeeps(mid, u, if ok then Over else Raised, id);
      assert InHand(mid, id) <==> InHand(s, id);
    }
  }

  lemma LoaderInv(s: State, e: Step)
    requires Inv(s) && Enabled(s, e) && (e.BuildOne? || e.DrainOne?)
    ensures Inv(Do(s, e))
  {
    var row := s.loader.todo[0];
    IdsHead(s.loader.todo);
    TreeAddIs(s, row);
    var t := Do(s, e);
    forall id | id in t.ours ensures Accounted(t, id) {
      assert Accounted(s, id);
      assert InHand(t, id) <==> InHand(s, id);
    }
  }

  lemma OtherInv(s: State, e: Step)
    requires Inv(s) && Enabled(s, e) && (e.Foreign? || e.Fetch? || e.Publish? || e.DrainEnd?)
    ensures Inv(Do(s, e))
  {
    var t := Do(s, e);
    forall id | id in t.ours ensures Accounted(t, id) {
      assert Accounted(s, id);
      assert InHand(t, id) <==> InHand(s, id);
    }
  }

  /** An upsert reaches the tree only after it is published. */
  predicate AddsArePublished(s: State) {
    forall u :: 0 <= u < |s.upserts| && s.upserts[u].at == Adding ==> s.published
  }

  lemma StepInv(s: State, e: Step)
    requires Inv(s) && AddsArePublished(s) && Enabled(s, e)
    ensures Inv(Do(s, e)) && AddsArePublished(Do(s, e))
  {
    match e
    case Commit(row) => CommitInv(s, row);
    case Route(u) => RouteInv(s, u);
    case AddToTree(u, ok) => AddToTreeInv(s, u, ok);
    case BuildOne(_) => LoaderInv(s, e);
    case DrainOne(_) => LoaderInv(s, e);
    case _ => OtherInv(s, e);
  }

  lemma {:induction false} RunInv(s: State, es: seq<Step>, t: State)
    requires Inv(s) && AddsArePublished(s) && Runs(s, es, t)
    ensures Inv(t) && AddsArePublished(t)
    decreases |es|
  {
    if es != [] {
      StepInv(s, es[0]);
      RunInv(Do(s, es[0]), es[1..], t);
    }
  }

  // ---- what every interleaving keeps ---------------------------------------------------------

  /** In every interleaving an id this process committed is in the tree, on its way there, or reported, unless the load
      failed. */
  lemma NeverLost(s: State, es: seq<Step>, t: State, id: string)
    requires Start(s) && Runs(s, es, t) && id in t.ours
    ensures Accounted(t, id)
  {
    RunInv(s, es, t);
  }

  lemma {:induction false} IdsSize(rows: seq<Row>)
    requires DistinctIds(rows)
    ensures |Ids(rows)| == |rows|
  {
    if rows != [] {
      IdsHead(rows);
      IdsSize(rows[1..]);
      assert rows[0].id !in Ids(rows[1..]);
    }
  }

  /** Some upsert of the id was told that it failed. */
  predicate HasRaised(t: State, id: string) {
    exists u :: 0 <= u < |t.upserts| && t.upserts[u].at == Raised && t.upserts[u].row.id == id
  }

  /**
   * At rest after a successful load the tree holds the fetched ids and ours, each once, save those reported as failed;
   * with no failure it holds exactly these, and its size is their number.
   */
  lemma AtRest(s: State, es: seq<Step>, t: State)
    requires Start(s) && Runs(s, es, t) && t.loader == Ready
    requires forall u :: 0 <= u < |t.upserts| ==> t.upserts[u].at == Over || t.upserts[u].at == Raised
    ensures DistinctIds(t.tree) && Ids(t.tree) <= Ids(t.fetched) + t.ours
    ensures forall id :: id in Ids(t.fetched) + t.ours && id !in Ids(t.tree) ==>
              id in t.lost || HasRaised(t, id)
    ensures t.lost == {} && (forall u :: 0 <= u < |t.upserts| ==> t.upserts[u].at == Over) ==>
              Ids(t.tree) == Ids(t.fetched) + t.ours && t.size == |Ids(t.fetched) + t.ours|
  {
    RunInv(s, es, t);
    IdsSize(t.tree);
    forall id | id in t.ours && id !in Ids(t.tree) && id !in t.lost
      ensures HasRaised(t, id)
    {
      assert Accounted(t, id);
      assert Ids(Todo(t)) == {} && Ids(t.pending) == {};
      var u :| 0 <= u < |t.upserts| && t.upserts[u].row.id == id && t.upserts[u].at != Over;
      assert t.upserts[u].at == Raised;
    }
  }

  // ---- which version the tree holds ----------------------------------------------------------

  /** The tree's entry for an id after adding is the added one exactly when the id was new or had that version
      already. */
  lemma FirstVersionStays(s: State, row: Row)
    requires DistinctIds(s.tree)
    ensures row in TreeAdd(s, row).tree <==> row.id !in Ids(s.tree) || row in s.tree
  {
  }

  /** When no id was ever committed with two versions, the tree's entries are those of the table. */
  lemma VersionsAgree(s: State, es: seq<Step>, t: State)
    requires Start(s) && Runs(s, es, t)
    requires forall a, b :: a in t.ever && b in t.ever && a.id == b.id ==> a == b
    ensures forall i :: 0 <= i < |t.tree| && t.tree[i].id in t.rows ==> t.rows[t.tree[i].id] == t.tree[i].dag
  {
    RunInv(s, es, t);
    forall i | 0 <= i < |t.tree| && t.tree[i].id in t.rows ensures t.rows[t.tree[i].id] == t.tree[i].dag {
      assert t.tree[i] in t.ever && Row(t.tree[i].id, t.rows[t.tree[i].id]) in t.ever;
    }
  }

  /** Every entry of the tree is the table's row for its id. */
  predicate Agrees(s: State) {
    forall i :: 0 <= i < |s.tree| ==> s.tree[i].id in s.rows && s.rows[s.tree[i].id] == s.tree[i].dag
  }

  /** A write keeps the tree in agreement with the table exactly when the id is not in the tree, or with that
      version. */
  lemma WriteAgreesIff(s: State, row: Row)
    requires DistinctIds(s.tree) && Agrees(s)
    ensures Agrees(Write(s, row)) <==> row.id !in Ids(s.tree) || row in s.tree
  {
    if row.id in Ids(s.tree) {
      var i :| 0 <= i < |s.tree| && s.tree[i].id == row.id;
      if row !in s.tree {
        assert Write(s, row).rows[s.tree[i].id] != s.tree[i].dag;
      }
    }
  }

  /** An add keeps them in agreement exactly when the id is there already, or the added version is still the table's. */
  lemma AddAgreesIff(s: State, row: Row)
    requires Agrees(s)
    ensures Agrees(TreeAdd(s, row)) <==> row.id in Ids(s.tree) || (row.id in s.rows && s.rows[row.id] == row.dag)
  {
    if row.id !in Ids(s.tree) {
      var t := TreeAdd(s, row);
      assert t.tree[|s.tree|] == row;
      assert forall i :: 0 <= i < |s.tree| ==> t.tree[i] == s.tree[i];
    }
  }

  /** What a caller can see before a step: no write changes an id that is in the tree, and no add brings an outdated
      version. */
  predicate KeepsVersions(s: State, e: Step)
    requires Enabled(s, e)
  {
    match e
    case Foreign(row) => row.id !in Ids(s.tree) || row in s.tree
    case Commit(row) => row.id !in Ids(s.tree) || row in s.tree
    case AddToTree(u, ok) => ok ==> IsCurrent(s, s.upserts[u].row)
    case BuildOne(ok) => ok ==> IsCurrent(s, s.loader.todo[0])
    case DrainOne(ok) => ok ==> IsCurrent(s, s.loader.todo[0])
    case _ => true
  }

  predicate IsCurrent(s: State, row: Row) {
    row.id in Ids(s.tree) || (row.id in s.rows && s.rows[row.id] == row.dag)
  }

  /** Tree and table stay in agreement over a step, this process's or another's, exactly when the step keeps
      versions. */
  lemma AgreesIff(s: State, e: Step)
    requires DistinctIds(s.tree) && Agrees(s) && Enabled(s, e)
    ensures Agrees(Do(s, e)) <==> KeepsVersions(s, e)
  {
    match e
    case Foreign(row) => WriteAgreesIff(s, row);
    case Commit(row) => WriteAgreesIff(s, row);
    case AddToTree(u, ok) => AddAgreesIff(s, s.upserts[u].row);
    case BuildOne(ok) => AddAgreesIff(s, s.loader.todo[0]);
    case DrainOne(ok) => AddAgreesIff(s, s.loader.todo[0]);
    case _ =>
  }

  /** So a whole upsert after the tree is published leaves them in agreement exactly when its id is new or its version
      is there. */
  lemma SaveAgreesIff(s: State, row: Row)
    requires DistinctIds(s.tree) && Agrees(s)
    ensures Agrees(SaveWhenReady(s, row)) <==> row.id !in Ids(s.tree) || row in s.tree
  {
    WriteAgreesIff(s, row);
    if row.id !in Ids(s.tree) {
      AddAgreesIff(Write(s, row), row);
    }
  }

  /** Saving a pipeline again with another DAG leaves the first DAG in the tree. */
  lemma StaleVersion(s: State) returns (es: seq<Step>, t: State)
    requires Start(s) && s.rows == map[]
    ensures Runs(s, es, t) && t.loader == Ready && t.tree == [Row("p", 1)] && t.rows == map["p" := 2]
    ensures forall u :: 0 <= u < |t.upserts| ==> t.upserts[u].at == Over
  {
    var a, b := Row("p", 1), Row("p", 2);
    var s3 := EmptyLoad(s);
    var s6 := SaveWhenReady(s3, a);
    SaveTwice(s3, a, b);
    t := SaveWhenReady(s6, b);
    SavingRuns(s3, a);
    SavingRuns(s6, b);
    RunsConcat(s3, Saving(s3, a), s6, Saving(s6, b), t);
    RunsConcat(s, [Fetch([]), Publish, DrainEnd], s3, Saving(s3, a) + Saving(s6, b), t);
    es := [Fetch([]), Publish, DrainEnd] + (Saving(s3, a) + Saving(s6, b));
  }

  lemma EmptyLoad(s: State) returns (t: State)
    requires Start(s) && s.rows == map[]
    ensures Runs(s, [Fetch([]), Publish, DrainEnd], t)
    ensures t == s.(loader := Ready, published := true)
  {
    t := Do(Do(Do(s, Fetch([])), Publish), DrainEnd);
    assert [DrainEnd][1..] == [] && [Publish, DrainEnd][1..] == [DrainEnd];
    assert [Fetch([]), Publish, DrainEnd][1..] == [Publish, DrainEnd];
    assert Runs(Do(Do(s, Fetch([])), Publish), [DrainEnd], t);
  }

  lemma SaveTwice(s: State, a: Row, b: Row)
    requires s.tree == [] && a.id == b.id
    ensures SaveWhenReady(SaveWhenReady(s, a), b).tree == [a]
  {
    IdsSnoc([], a);
    assert [] + [a] == [a];
  }

  /** The steps of one upsert from commit to tree, once the tree is published. */
  function Saving(s: State, row: Row): seq<Step> {
    [Commit(row), Route(|s.upserts|), AddToTree(|s.upserts|, true)]
  }

  function SaveWhenReady(s: State, row: Row): State {
    TreeAdd(Write(s, row), row).(upserts := s.upserts + [Upsert(row, Over)], ours := s.ours + {row.id})
  }

  lemma SavingRuns(s: State, row: Row)
    requires s.published
    ensures Runs(s, Saving(s, row), SaveWhenReady(s, row))
  {
    var u := |s.upserts|;
    var e := AddToTree(u, true);
    var s1 := Do(s, Commit(row));
    var s2 := To(s1, u, Adding);
    assert Enabled(s1, Route(u)) && Do(s1, Route(u)) == s2;
    assert Do(s2, e).upserts == s.upserts + [Upsert(row, Over)];
    assert Do(s2, e) == SaveWhenReady(s, row);
    assert Runs(s2, [e], SaveWhenReady(s, row)) by { assert [e][1..] == []; }
    assert Runs(s1, [Route(u), e], SaveWhenReady(s, row)) by { assert [Route(u), e][1..] == [e]; }
    assert Saving(s, row)[1..] == [Route(u), e];
  }

  lemma {:induction false} RunsConcat(s: State, es: seq<Step>, t: State, fs: seq<Step>, u: State)
    requires Runs(s, es, t) && Runs(t, fs, u)
    ensures Runs(s, es + fs, u)
    decreases |es|
  {
    if es == [] {
      assert es + fs == fs;
    } else {
      RunsConcat(Do(s, es[0]), es[1..], t, fs, u);
      assert (es + fs)[1..] == es[1..] + fs;
    }
  }
}
