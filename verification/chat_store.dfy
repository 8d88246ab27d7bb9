/**
  The chat history of `EnginexBackend` in backend_enginex.py: the table
  `riwayat_konsultasi` seen as the sequence of its rows in insertion order,
  each with the AUTOINCREMENT id it was given. Saving appends a row, reading
  filters by project and gem, clearing deletes the matching rows, and the
  project list is the set of project names in use.
 */
module ChatStore {

  /** One row of `riwayat_konsultasi` (the timestamp column is left out). */
  datatype Record = Record(id: nat, project: string, gem: string, role: string, content: string)

  /** A row as `get_chat_history` returns it: `{role, content}`. */
  datatype Message = Message(role: string, content: string)

  /** The rows in insertion order and the next AUTOINCREMENT id. */
  datatype Store = Store(records: seq<Record>, nextId: nat)

  const Empty := Store([], 1)

  predicate IdsIncreasing(rs: seq<Record>) {
    forall i, j :: 0 <= i < j < |rs| ==> rs[i].id < rs[j].id
  }

  /** Ids grow with insertion order and stay below the next id, so reading
      `ORDER BY id ASC` is reading in insertion order. */
  predicate Valid(db: Store) {
    && IdsIncreasing(db.records)
    && forall i :: 0 <= i < |db.records| ==> db.records[i].id < db.nextId
  }

  predicate Matches(r: Record, project: string, gem: string) {
    r.project == project && r.gem == gem
  }

  /** The rows whose (project, gem) match (`keep`) or do not match (`!keep`),
      in their stored order. */
  function Select(rs: seq<Record>, project: string, gem: string, keep: bool): (sel: seq<Record>)
    ensures |sel| <= |rs|
    decreases |rs|
  {
    if |rs| == 0 then []
    else
      var rest := Select(rs[..|rs| - 1], project, gem, keep);
      if Matches(rs[|rs| - 1], project, gem) == keep then rest + [rs[|rs| - 1]] else rest
  }

  function Messages(rs: seq<Record>): (ms: seq<Message>)
    ensures |ms| == |rs|
    ensures forall k :: 0 <= k < |rs| ==> ms[k] == Message(rs[k].role, rs[k].content)
  {
    seq(|rs|, k requires 0 <= k < |rs| => Message(rs[k].role, rs[k].content))
  }

  /** `simpan_chat`: one new row with a fresh id at the end; every existing
      row is kept as it was. */
  function SimpanChat(db: Store, project: string, gem: string, role: string, text: string): (db': Store)
    ensures |db'.records| == |db.records| + 1
    ensures db'.records[..|db.records|] == db.records
    ensures db'.records[|db.records|] == Record(db.nextId, project, gem, role, text)
    ensures Valid(db) ==> Valid(db') && db'.nextId > db.nextId
  {
    Store(db.records + [Record(db.nextId, project, gem, role, text)], db.nextId + 1)
  }

  /** `get_chat_history`: role and content of the rows for that project and
      gem, oldest first. */
  function GetChatHistory(db: Store, project: string, gem: string): (h: seq<Message>)
    ensures |h| <= |db.records|
  {
    Messages(Select(db.records, project, gem, true))
  }

  /** `clear_chat`: delete the rows for that project and gem. The id counter
      does not go back. */
  function ClearChat(db: Store, project: string, gem: string): (db': Store)
    ensures |db'.records| <= |db.records|
    ensures db'.nextId == db.nextId
  {
    Store(Select(db.records, project, gem, false), db.nextId)
  }

  /** The project names in first-appearance order, each once. */
  function Distinct(rs: seq<Record>): seq<string>
    decreases |rs|
  {
    if |rs| == 0 then []
    else
      var rest := Distinct(rs[..|rs| - 1]);
      if rs[|rs| - 1].project in rest then rest else rest + [rs[|rs| - 1].project]
  }

  /** `daftar_proyek`: `SELECT DISTINCT project_name`. */
  function DaftarProyek(db: Store): seq<string> {
    Distinct(db.records)
  }

  /** `export_data`: every stored row, in stored order. */
  function ExportData(db: Store): (rows: seq<Record>)
    ensures |rows| == |db.records|
    ensures forall r :: r in db.records ==> r in rows
  {
    db.records
  }

  // ----- properties -----

  /** The selection holds exactly the rows of `rs` on the chosen side. */
  lemma {:induction false} SelectMembers(rs: seq<Record>, project: string, gem: string, keep: bool)
    ensures forall r :: r in Select(rs, project, gem, keep) <==> r in rs && Matches(r, project, gem) == keep
    decreases |rs|
  {
    if |rs| > 0 {
      var init := rs[..|rs| - 1];
      SelectMembers(init, project, gem, keep);
      assert rs == init + [rs[|rs| - 1]];
    }
  }

  /** A selection from rows with increasing ids has increasing ids too. */
  lemma {:induction false} SelectIncreasing(rs: seq<Record>, project: string, gem: string, keep: bool)
    requires IdsIncreasing(rs)
    ensures IdsIncreasing(Select(rs, project, gem, keep))
    decreases |rs|
  {
    if |rs| > 0 {
      var init := rs[..|rs| - 1];
      var last := rs[|rs| - 1];
      SelectIncreasing(init, project, gem, keep);
      SelectMembers(init, project, gem, keep);
      var rest := Select(init, project, gem, keep);
      forall k | 0 <= k < |rest| ensures rest[k].id < last.id {
        assert rest[k] in init;
      }
    }
  }

  /** Saving a row changes only the history of its own (project, gem): that
      history gains the new message at its end. */
  lemma HistoryAfterSave(db: Store, project: string, gem: string, role: string, text: string, p: string, g: string)
    ensures GetChatHistory(SimpanChat(db, project, gem, role, text), p, g) ==
      GetChatHistory(db, p, g) + (if p == project && g == gem then [Message(role, text)] else [])
  {
    var db' := SimpanChat(db, project, gem, role, text);
    assert db'.records[..|db'.records| - 1] == db.records;
  }

  /** The history is exactly the matching rows, ordered by id: every matching
      row is in it, nothing else is, and ids increase along it. */
  lemma HistoryIsMatchingRows(db: Store, project: string, gem: string)
    requires Valid(db)
    ensures var rs := Select(db.records, project, gem, true);
      && GetChatHistory(db, project, gem) == Messages(rs)
      && IdsIncreasing(rs)
      && forall r :: r in rs <==> r in db.records && Matches(r, project, gem)
  {
    SelectMembers(db.records, project, gem, true);
    SelectIncreasing(db.records, project, gem, true);
  }

  /** Clearing removes exactly the rows of that project and gem; every other
      row stays, still in id order. */
  lemma ClearRemovesExactly(db: Store, project: string, gem: string)
    requires Valid(db)
    ensures var db' := ClearChat(db, project, gem);
      && Valid(db')
      && forall r :: r in db'.records <==> r in db.records && !Matches(r, project, gem)
  {
    var db' := ClearChat(db, project, gem);
    SelectMembers(db.records, project, gem, false);
    SelectIncreasing(db.records, project, gem, false);
    forall i | 0 <= i < |db'.records| ensures db'.records[i].id < db'.nextId {
      assert db'.records[i] in db.records;
    }
  }

  /** After clearing, the cleared history is empty and every other history is
      what it was. */
  lemma HistoryAfterClear(db: Store, project: string, gem: string, p: string, g: string)
    ensures GetChatHistory(ClearChat(db, project, gem), project, gem) == []
    ensures !(p == project && g == gem) ==>
      GetChatHistory(ClearChat(db, project, gem), p, g) == GetChatHistory(db, p, g)
  {
    ClearedSelectsNothing(db.records, project, gem);
    if !(p == project && g == gem) {
      ClearKeepsOtherSelection(db.records, project, gem, p, g);
    }
  }

  /** Selecting from one more row selects from the rows, then that row. */
  lemma SelectSnoc(rs: seq<Record>, x: Record, project: string, gem: string, keep: bool)
    ensures Select(rs + [x], project, gem, keep) ==
      Select(rs, project, gem, keep) + (if Matches(x, project, gem) == keep then [x] else [])
  {
    assert (rs + [x])[..|rs|] == rs;
  }

  lemma {:induction false} ClearedSelectsNothing(rs: seq<Record>, project: string, gem: string)
    ensures Select(Select(rs, project, gem, false), project, gem, true) == []
    decreases |rs|
  {
    if |rs| > 0 {
      var init := rs[..|rs| - 1];
      var last := rs[|rs| - 1];
      ClearedSelectsNothing(init, project, gem);
      if !Matches(last, project, gem) {
        SelectSnoc(Select(init, project, gem, false), last, project, gem, true);
      }
    }
  }

  lemma {:induction false} ClearKeepsOtherSelection(rs: seq<Record>, project: string, gem: string, p: string, g: string)
    requires !(p == project && g == gem)
    ensures Select(Select(rs, project, gem, false), p, g, true) == Select(rs, p, g, true)
    decreases |rs|
  {
    if |rs| > 0 {
      var init := rs[..|rs| - 1];
      var last := rs[|rs| - 1];
      ClearKeepsOtherSelection(init, project, gem, p, g);
      if !Matches(last, project, gem) {
        SelectSnoc(Select(init, project, gem, false), last, p, g, true);
      }
    }
  }

  /** Some row belongs to `project`. */
  predicate HasProject(rs: seq<Record>, project: string) {
    exists r :: r in rs && r.project == project
  }

  /** The project list holds each project that has a row, exactly once. */
  lemma {:induction false} DistinctSpec(rs: seq<Record>)
    ensures forall i, j :: 0 <= i < j < |Distinct(rs)| ==> Distinct(rs)[i] != Distinct(rs)[j]
    ensures forall p :: p in Distinct(rs) <==> HasProject(rs, p)
    decreases |rs|
  {
    if |rs| > 0 {
      var init := rs[..|rs| - 1];
      DistinctSpec(init);
      assert rs == init + [rs[|rs| - 1]];
      forall p ensures HasProject(rs, p) <==> HasProject(init, p) || rs[|rs| - 1].project == p {
        if HasProject(rs, p) {
          var r :| r in rs && r.project == p;
          if r != rs[|rs| - 1] {
            assert r in init;
          }
        }
      }
    }
  }

  /** A project all of whose rows belong to one gem disappears from the
      project list once that gem's chat for it is cleared. */
  lemma ProjectDisappears(db: Store, project: string, gem: string)
    requires forall r :: r in db.records && r.project == project ==> r.gem == gem
    ensures project !in DaftarProyek(ClearChat(db, project, gem))
  {
    var db' := ClearChat(db, project, gem);
    SelectMembers(db.records, project, gem, false);
    DistinctSpec(db'.records);
  }

  /** A project stays listed as long as one of its rows survives. */
  lemma ProjectListedWhileRowsRemain(db: Store, project: string, gem: string, r: Record)
    requires r in db.records && r.project == project && r.gem != gem
    ensures project in DaftarProyek(ClearChat(db, project, gem))
  {
    var db' := ClearChat(db, project, gem);
    SelectMembers(db.records, project, gem, false);
    DistinctSpec(db'.records);
    assert r in db'.records;
  }
}
