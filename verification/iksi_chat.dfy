/**
  The AI chat history of `IrigasiBackend` in backend_iksi.py: rows of
  `riwayat_konsultasi` keyed by gem only. Reading takes `ORDER BY id ASC
  LIMIT 50`, so it returns the fifty OLDEST messages of a gem, although the
  method's doc comment speaks of the last fifty.
 */
module IksiChat {
  import ChatStore

  /** One row of this back end's `riwayat_konsultasi` (no project column;
      the timestamp is left out). */
  datatype Record = Record(id: nat, gem: string, role: string, content: string)

  datatype Store = Store(records: seq<Record>, nextId: nat)

  const Empty := Store([], 1)

  const HistoryLimit := 50

  predicate IdsIncreasing(rs: seq<Record>) {
    forall i, j :: 0 <= i < j < |rs| ==> rs[i].id < rs[j].id
  }

  /** Ids grow with insertion order and stay below the next AUTOINCREMENT
      id, so `ORDER BY id ASC` is the stored order. */
  predicate Valid(db: Store) {
    && IdsIncreasing(db.records)
    && forall i :: 0 <= i < |db.records| ==> db.records[i].id < db.nextId
  }

  /** The rows whose gem is `gem` (`keep`) or is not (`!keep`), in stored
      order. */
  function Select(rs: seq<Record>, gem: string, keep: bool): (sel: seq<Record>)
    ensures |sel| <= |rs|
    decreases |rs|
  {
    if |rs| == 0 then []
    else
      var rest := Select(rs[..|rs| - 1], gem, keep);
      if (rs[|rs| - 1].gem == gem) == keep then rest + [rs[|rs| - 1]] else rest
  }

  /** The rows of `gem`, in stored order. */
  function ForGem(rs: seq<Record>, gem: string): (sel: seq<Record>)
    ensures |sel| <= |rs|
  {
    Select(rs, gem, true)
  }

  function Messages(rs: seq<Record>): (ms: seq<ChatStore.Message>)
    ensures |ms| == |rs|
    ensures forall k :: 0 <= k < |rs| ==> ms[k] == ChatStore.Message(rs[k].role, rs[k].content)
  {
    seq(|rs|, k requires 0 <= k < |rs| => ChatStore.Message(rs[k].role, rs[k].content))
  }

  /** `simpan_chat_ai`: one new row with a fresh id at the end. */
  function SimpanChatAi(db: Store, gem: string, role: string, content: string): (db': Store)
    ensures |db'.records| == |db.records| + 1
    ensures db'.records[..|db.records|] == db.records
    ensures db'.records[|db.records|] == Record(db.nextId, gem, role, content)
    ensures Valid(db) ==> Valid(db') && forall r :: r in db.records ==> r.id < db'.records[|db.records|].id
  {
    Store(db.records + [Record(db.nextId, gem, role, content)], db.nextId + 1)
  }

  /** `get_chat_history`: at most fifty messages of that gem, oldest first. */
  function GetChatHistory(db: Store, gem: string): (h: seq<ChatStore.Message>)
    ensures |h| <= HistoryLimit
  {
    var rows := ForGem(db.records, gem);
    Messages(if |rows| <= HistoryLimit then rows else rows[..HistoryLimit])
  }

  /** `hapus_chat_history`: delete every row of that gem. */
  function HapusChatHistory(db: Store, gem: string): (db': Store)
    ensures |db'.records| <= |db.records|
    ensures db'.nextId == db.nextId
  {
    Store(Others(db.records, gem), db.nextId)
  }

  /** Deleting keeps exactly the rows of other gems, and keeps the store
      valid. */
  lemma DeleteKeepsValid(db: Store, gem: string)
    requires Valid(db)
    ensures Valid(HapusChatHistory(db, gem))
    ensures forall r :: r in HapusChatHistory(db, gem).records <==> r in db.records && r.gem != gem
  {
    var rs := Others(db.records, gem);
    SelectMembers(db.records, gem, false);
    SelectIncreasing(db.records, gem, false);
    forall i | 0 <= i < |rs| ensures rs[i].id < db.nextId {
      assert rs[i] in db.records;
    }
  }

  /** The rows of every other gem, in stored order. */
  function Others(rs: seq<Record>, gem: string): (sel: seq<Record>)
    ensures |sel| <= |rs|
  {
    Select(rs, gem, false)
  }

  // ----- properties -----

  /** The selection holds exactly the rows of `rs` on the chosen side. */
  lemma {:induction false} SelectMembers(rs: seq<Record>, gem: string, keep: bool)
    ensures forall r :: r in Select(rs, gem, keep) <==> r in rs && (r.gem == gem) == keep
    decreases |rs|
  {
    if |rs| > 0 {
      var init := rs[..|rs| - 1];
      SelectMembers(init, gem, keep);
      assert rs == init + [rs[|rs| - 1]];
    }
  }

  /** A selection from rows with increasing ids has increasing ids too. */
  lemma {:induction false} SelectIncreasing(rs: seq<Record>, gem: string, keep: bool)
    requires IdsIncreasing(rs)
    ensures IdsIncreasing(Select(rs, gem, keep))
    decreases |rs|
  {
    if |rs| > 0 {
      var init := rs[..|rs| - 1];
      var last := rs[|rs| - 1];
      SelectIncreasing(init, gem, keep);
      SelectMembers(init, gem, keep);
      var rest := Select(init, gem, keep);
      forall k | 0 <= k < |rest| ensures rest[k].id < last.id {
        assert rest[k] in init;
      }
    }
  }

  lemma ForGemSnoc(rs: seq<Record>, x: Record, gem: string)
    ensures ForGem(rs + [x], gem) == ForGem(rs, gem) + (if x.gem == gem then [x] else [])
  {
    assert (rs + [x])[..|rs|] == rs;
  }

  /** The history is a prefix of the gem's rows: the first fifty of them, or
      all when there are fewer. */
  lemma HistoryIsOldest(db: Store, gem: string)
    ensures var rows := ForGem(db.records, gem);
      var n := if |rows| < HistoryLimit then |rows| else HistoryLimit;
      && |GetChatHistory(db, gem)| == n
      && forall k :: 0 <= k < n ==> GetChatHistory(db, gem)[k] == ChatStore.Message(rows[k].role, rows[k].content)
    ensures Valid(db) ==>
      var rows := ForGem(db.records, gem);
      var n := if |rows| < HistoryLimit then |rows| else HistoryLimit;
      && IdsIncreasing(rows)
      && (forall r :: r in rows <==> r in db.records && r.gem == gem)
      && forall r :: r in db.records && r.gem == gem && r !in rows[..n] ==>
           forall k :: 0 <= k < n ==> rows[k].id < r.id
  {
    var rows := ForGem(db.records, gem);
    var n := if |rows| < HistoryLimit then |rows| else HistoryLimit;
    SelectMembers(db.records, gem, true);
    if Valid(db) {
      SelectIncreasing(db.records, gem, true);
      forall r | r in db.records && r.gem == gem && r !in rows[..n]
        ensures forall k :: 0 <= k < n ==> rows[k].id < r.id
      {
        var j :| 0 <= j < |rows| && rows[j] == r;
        assert j >= n;
      }
    }
  }

  /** Once a gem has fifty messages, saving another leaves its history
      unchanged: the newest message is never read back. */
  lemma NewestNotReadBack(db: Store, gem: string, role: string, content: string)
    requires |ForGem(db.records, gem)| >= HistoryLimit
    ensures GetChatHistory(SimpanChatAi(db, gem, role, content), gem) == GetChatHistory(db, gem)
  {
    var rows := ForGem(db.records, gem);
    ForGemSnoc(db.records, Record(db.nextId, gem, role, content), gem);
    assert (rows + [Record(db.nextId, gem, role, content)])[..HistoryLimit] == rows[..HistoryLimit];
  }

  /** Below fifty messages, saving one appends it to the gem's history. */
  lemma SaveShowsWhileRoom(db: Store, gem: string, role: string, content: string)
    requires |ForGem(db.records, gem)| < HistoryLimit
    ensures GetChatHistory(SimpanChatAi(db, gem, role, content), gem) ==
      GetChatHistory(db, gem) + [ChatStore.Message(role, content)]
  {
    ForGemSnoc(db.records, Record(db.nextId, gem, role, content), gem);
  }

  /** Saving for one gem leaves every other gem's history as it was. */
  lemma SaveLeavesOtherGems(db: Store, gem: string, role: string, content: string, other: string)
    requires other != gem
    ensures GetChatHistory(SimpanChatAi(db, gem, role, content), other) == GetChatHistory(db, other)
  {
    ForGemSnoc(db.records, Record(db.nextId, gem, role, content), other);
  }

  /** Deleting a gem's history empties it and keeps every other gem's rows. */
  lemma {:induction false} DeleteSpec(rs: seq<Record>, gem: string, other: string)
    ensures ForGem(Others(rs, gem), gem) == []
    ensures other != gem ==> ForGem(Others(rs, gem), other) == ForGem(rs, other)
    decreases |rs|
  {
    if |rs| > 0 {
      var init := rs[..|rs| - 1];
      var last := rs[|rs| - 1];
      DeleteSpec(init, gem, other);
      if last.gem != gem {
        ForGemSnoc(Others(init, gem), last, gem);
        ForGemSnoc(Others(init, gem), last, other);
      }
    }
  }

  /** After `hapus_chat_history(gem)` the gem has no history, and other gems
      keep theirs. */
  lemma HistoryAfterDelete(db: Store, gem: string, other: string)
    ensures GetChatHistory(HapusChatHistory(db, gem), gem) == []
    ensures other != gem ==> GetChatHistory(HapusChatHistory(db, gem), other) == GetChatHistory(db, other)
  {
    DeleteSpec(db.records, gem, other);
  }
}
