/** The role object: its marks, flushes and saves update fields in place, and the item operations of
    src/mainsvr/role/item.go run over them. */
module LiveRole {
  import opened Options
  import RoleRuns
  import opened RoleSync

  datatype Code = Done | NotEnough | BadArgument | OverLimit | Fault | Crash

  /** What the configuration says an item is; `OtherIcon`: of icon type, but neither icon nor frame. */
  datatype Kind = Unknown | Plain | IconItem | FrameItem | OtherIcon

  datatype Stack = Stack(id: int, count: int)

  /** How much of `id` a list asks for. */
  function Asked(items: seq<Stack>, id: int): int {
    if items == [] then 0
    else Asked(items[..|items| - 1], id) + if items[|items| - 1].id == id then items[|items| - 1].count else 0
  }

  /** What two lists ask for adds up, and one entry asks for its own count. */
  lemma {:induction false} AskedAddsUp(a: seq<Stack>, b: seq<Stack>, s: Stack, id: int)
    ensures Asked(a + b, id) == Asked(a, id) + Asked(b, id)
    ensures Asked([s], id) == if s.id == id then s.count else 0
    decreases |b|
  {
    assert [s][..0] == [];
    if b == [] {
      assert a + b == a;
    } else {
      assert (a + b)[..|a + b| - 1] == a + b[..|b| - 1];
      AskedAddsUp(a, b[..|b| - 1], s, id);
    }
  }

  lemma {:induction false} AskedAbsent(items: seq<Stack>, id: int)
    requires forall i :: 0 <= i < |items| ==> items[i].id != id
    ensures Asked(items, id) == 0
  {
    if items != [] {
      AskedAbsent(items[..|items| - 1], id);
    }
  }

  /** GetItemCount: currencies are looked up by name, everything else in the item table. */
  function Have(r: RoleState, basic: set<int>, id: int): int
    requires Currencies in r.content.tables && Items in r.content.tables
  {
    if id in basic then (if id in r.content.tables[Currencies] then r.content.tables[Currencies][id] else 0)
    else if id in r.content.tables[Items] then r.content.tables[Items][id]
    else 0
  }

  /** Whether ItemGetCountRef finds something to refer to. */
  predicate Present(r: RoleState, basic: set<int>, id: int)
    requires Items in r.content.tables
  {
    id in basic || id in r.content.tables[Items]
  }

  /** The count of `id` moves by `delta` and no other count moves. */
  ghost predicate OnlyMoved(r: RoleState, r': RoleState, basic: set<int>, id: int, delta: int)
    requires Shaped(r) && Shaped(r')
  {
    && Have(r', basic, id) == Have(r, basic, id) + delta
    && (forall x :: x != id ==> Have(r', basic, x) == Have(r, basic, x) && (Present(r', basic, x) <==> Present(r, basic, x)))
  }

  /** What a change of the count of `id` leaves alone. */
  ghost predicate OtherwiseSame(r: RoleState, r': RoleState)
    requires Shaped(r) && Shaped(r')
  {
    && r'.client == r.client && r'.stored == r.stored && r'.written == r.written && r'.equipDirty == r.equipDirty
    && r'.content.equip == r.content.equip && r'.content.rest == r.content.rest
    && forall p: Part :: p != Currencies && p != Items ==> r'.content.tables[p] == r.content.tables[p]
  }

  /** What a noted change of the count of `id` marks: the section to store, and for the client the whole
      basic section or the one entry; `gone`: the entry is removed. */
  ghost predicate Noted(r: RoleState, r': RoleState, basic: set<int>, id: int, gone: bool)
    requires Shaped(r) && Shaped(r')
  {
    var s := if id in basic then Basic else Inventory;
    && r'.needPersist && r'.persistDirty == r.persistDirty + {s}
    && if id in basic then
         r'.full == r.full + {Basic} && r'.patch == r.patch - {Basic} && r'.upserts == r.upserts && r'.deletes == r.deletes
       else
         && r'.full == r.full && (r'.patch == r.patch || r'.patch == r.patch + {Inventory})
         && (Inventory in r'.full || Inventory in r'.patch)
         && r'.upserts == r.upserts[Items := if gone then r.upserts[Items] - {id} else r.upserts[Items] + {id}]
         && r'.deletes == r.deletes[Items := if gone then r.deletes[Items] + {id} else r.deletes[Items] - {id}]
  }

  /** Nothing but the content changed, or the marks say what did. */
  ghost predicate Kept(r: RoleState, r': RoleState, basic: set<int>, id: int, noted: bool, gone: bool)
    requires Shaped(r) && Shaped(r')
  {
    OtherwiseSame(r, r') && if noted then Noted(r, r', basic, id, gone) else r' == r.(content := r'.content)
  }

  lemma EntryPersist(r: RoleState, id: int, deleted: bool)
    requires Shaped(r)
    ensures var r' := MarkEntry(r, Items, id, deleted);
            && r'.needPersist && r'.persistDirty == r.persistDirty + {Inventory}
            && r'.stored == r.stored && r'.written == r.written
  {
    hide MarkPatchSection, Shaped, Whole;
    PatchSectionEffect(r, Inventory);
  }

  lemma EntryNoted(r: RoleState, basic: set<int>, id: int, t: Table, deleted: bool)
    requires Shaped(r) && id !in basic
    ensures var r' := MarkEntry(SetTable(r, Items, t), Items, id, deleted);
            Shaped(r') && Kept(r, r', basic, id, true, deleted)
  {
    TableSetShaped(r, Items, t);
    MarkEntryEffect(r, Items, t, id, deleted);
    EntryPersist(SetTable(r, Items, t), id, deleted);
    hide MarkEntry, Shaped, Whole;
  }

  lemma CurrencyNoted(r: RoleState, basic: set<int>, id: int, t: Table, gone: bool)
    requires Shaped(r) && id in basic
    ensures var r' := Touch(SetTable(r, Currencies, t), Basic);
            Shaped(r') && Kept(r, r', basic, id, true, gone)
  {
    TableSetShaped(r, Currencies, t);
    TouchEffect(SetTable(r, Currencies, t), Basic);
    hide Touch, SectionOf;
  }

  lemma PutNoted(r: RoleState, basic: set<int>, id: int, v: int, gone: bool)
    requires Shaped(r)
    ensures Shaped(PutCount(r, basic, id, v)) && Kept(r, PutCount(r, basic, id, v), basic, id, false, gone)
  {
    TableSetShaped(r, Currencies, r.content.tables[Currencies][id := v]);
    TableSetShaped(r, Items, r.content.tables[Items][id := v]);
    hide SectionOf;
  }

  /** A change is noted when it is tracked or leaves nothing; an item that runs out is marked as removed. */
  lemma CountSetNoted(r: RoleState, basic: set<int>, id: int, v: int, tracked: bool)
    requires Shaped(r)
    ensures Shaped(CountSet(r, basic, id, v, tracked))
    ensures Kept(r, CountSet(r, basic, id, v, tracked), basic, id, tracked || v == 0, v == 0)
  {
    var coins, items := r.content.tables[Currencies], r.content.tables[Items];
    hide Kept, Shaped, MarkEntry, Touch, SectionOf;
    if id in basic {
      CurrencyNoted(r, basic, id, coins[id := v], v == 0);
    } else if v == 0 {
      EntryNoted(r, basic, id, items - {id}, true);
    } else {
      EntryNoted(r, basic, id, items[id := v], false);
    }
    PutNoted(r, basic, id, v, false);
  }

  /** The same for an assignment and its mark, even when the count becomes 0. */
  lemma PutAndNoted(r: RoleState, basic: set<int>, id: int, v: int)
    requires Shaped(r)
    ensures Shaped(PutCount(r, basic, id, v))
    ensures var put := PutCount(r, basic, id, v);
            var r' := if id in basic then Touch(put, Basic) else MarkEntry(put, Items, id, false);
            Shaped(r') && Kept(r, put, basic, id, false, false) && Kept(r, r', basic, id, true, false)
  {
    var coins, items := r.content.tables[Currencies], r.content.tables[Items];
    PutNoted(r, basic, id, v, false);
    hide Kept, MarkEntry, Touch, SectionOf;
    if id in basic {
      CurrencyNoted(r, basic, id, coins[id := v], false);
    } else {
      EntryNoted(r, basic, id, items[id := v], false);
    }
  }

  function PutCount(r: RoleState, basic: set<int>, id: int, v: int): RoleState
    requires Shaped(r)
  {
    if id in basic then SetTable(r, Currencies, r.content.tables[Currencies][id := v])
    else SetTable(r, Items, r.content.tables[Items][id := v])
  }

  /** A change of a count with its mark: the whole basic section for a currency, an item mark
      otherwise. An item that runs out is removed and marked whatever the reason of the change. */
  function CountSet(r: RoleState, basic: set<int>, id: int, v: int, tracked: bool): RoleState
    requires Shaped(r)
  {
    if v == 0 && id !in basic then DeleteEntry(r, Items, id)
    else if !tracked && v != 0 then PutCount(r, basic, id, v)
    else if id in basic then SetCurrency(r, id, v)
    else SetEntry(r, Items, id, v)
  }

  lemma PutCountMoves(r: RoleState, basic: set<int>, id: int, v: int)
    requires Shaped(r)
    ensures Shaped(PutCount(r, basic, id, v))
    ensures OnlyMoved(r, PutCount(r, basic, id, v), basic, id, v - Have(r, basic, id))
    ensures Present(PutCount(r, basic, id, v), basic, id)
  {
  }

  /** CountSet as the assignment followed by the mark. */
  lemma CountSetSplit(r: RoleState, basic: set<int>, id: int, v: int, tracked: bool)
    requires Shaped(r) && Shaped(PutCount(r, basic, id, v))
    ensures var put := PutCount(r, basic, id, v);
            CountSet(r, basic, id, v, tracked) ==
              if v == 0 && id !in basic then DeleteEntry(put, Items, id)
              else if !tracked && v != 0 then put
              else if id in basic then Touch(put, Basic)
              else MarkEntry(put, Items, id, false)
  {
    hide Touch, MarkEntry, SectionOf;
    if v == 0 && id !in basic {
      var t := r.content.tables[Items];
      assert t[id := v] - {id} == t - {id};
      var a, b := SetTable(PutCount(r, basic, id, v), Items, t - {id}), SetTable(r, Items, t - {id});
      assert a.content.tables == b.content.tables;
    }
  }

  /** Tracked changes of counts keep the sync invariant. */
  lemma CountSetMoves(r: RoleState, basic: set<int>, id: int, v: int, tracked: bool)
    requires Shaped(r)
    ensures Shaped(CountSet(r, basic, id, v, tracked))
    ensures OnlyMoved(r, CountSet(r, basic, id, v, tracked), basic, id, v - Have(r, basic, id))
    ensures tracked && SyncInv(r) ==> SyncInv(CountSet(r, basic, id, v, tracked))
    ensures Present(CountSet(r, basic, id, v, tracked), basic, id) <==> id in basic || v != 0
  {
    hide SyncInv, SectionOf, MarkEntry, Touch, PutCount, SetTable, RoleRuns.ChangedIn;
    if v == 0 && id !in basic {
      RoleRuns.RemoveKeeps(r, Items, id);
      RemovedMoves(r, basic, id);
    } else if !tracked && v != 0 {
      PutCountMoves(r, basic, id, v);
    } else if id in basic {
      RoleRuns.CurrencyKeeps(r, id, v);
      MintedMoves(r, basic, id, v);
    } else {
      RoleRuns.UpsertKeeps(r, Items, id, v);
      UpdatedMoves(r, basic, id, v);
    }
  }

  lemma TakenFrom(r: RoleState, basic: set<int>, id: int, count: int, tracked: bool)
    requires Shaped(r)
    ensures var r' := CountSet(r, basic, id, Have(r, basic, id) - count, tracked);
            && Shaped(r') && OnlyMoved(r, r', basic, id, -count)
            && (Present(r', basic, id) <==> id in basic || Have(r', basic, id) != 0)
            && Kept(r, r', basic, id, tracked || Have(r', basic, id) == 0, Have(r', basic, id) == 0)
            && (tracked && SyncInv(r) ==> SyncInv(r'))
    ensures OnlyMoved(r, r, basic, id, 0) && (!Present(r, basic, id) ==> Have(r, basic, id) == 0)
  {
    hide SyncInv, CountSet, Kept;
    CountSetMoves(r, basic, id, Have(r, basic, id) - count, tracked);
    CountSetNoted(r, basic, id, Have(r, basic, id) - count, tracked);
  }

  lemma RemovedMoves(r: RoleState, basic: set<int>, id: int)
    requires Shaped(r) && id !in basic && Shaped(DeleteEntry(r, Items, id))
    ensures OnlyMoved(r, DeleteEntry(r, Items, id), basic, id, -Have(r, basic, id))
    ensures !Present(DeleteEntry(r, Items, id), basic, id)
  {
    hide MarkEntry, SectionOf;
    MarkEntryEffect(r, Items, r.content.tables[Items] - {id}, id, true);
  }

  lemma UpdatedMoves(r: RoleState, basic: set<int>, id: int, v: int)
    requires Shaped(r) && id !in basic && Shaped(SetEntry(r, Items, id, v))
    ensures OnlyMoved(r, SetEntry(r, Items, id, v), basic, id, v - Have(r, basic, id))
    ensures Present(SetEntry(r, Items, id, v), basic, id)
  {
    hide MarkEntry, SectionOf;
    MarkEntryEffect(r, Items, r.content.tables[Items][id := v], id, false);
  }

  lemma MintedMoves(r: RoleState, basic: set<int>, id: int, v: int)
    requires Shaped(r) && id in basic && Shaped(SetCurrency(r, id, v))
    ensures OnlyMoved(r, SetCurrency(r, id, v), basic, id, v - Have(r, basic, id))
  {
    hide Touch, SectionOf;
    TouchEffect(SetTable(r, Currencies, r.content.tables[Currencies][id := v]), Basic);
  }

  /** An assignment of a count and its mark, even when the count becomes 0. */
  lemma MarkedCount(r: RoleState, basic: set<int>, id: int, v: int)
    requires Shaped(r)
    ensures var put := PutCount(r, basic, id, v);
            var r' := if id in basic then Touch(put, Basic) else MarkEntry(put, Items, id, false);
            && Shaped(put) && Shaped(r') && OnlyMoved(r, r', basic, id, v - Have(r, basic, id))
            && (SyncInv(r) ==> SyncInv(r'))
  {
    hide SyncInv, SectionOf, MarkEntry, Touch;
    PutCountMoves(r, basic, id, v);
    if id in basic {
      RoleRuns.CurrencyKeeps(r, id, v);
      TouchEffect(SetTable(r, Currencies, r.content.tables[Currencies][id := v]), Basic);
    } else {
      RoleRuns.UpsertKeeps(r, Items, id, v);
      MarkEntryEffect(r, Items, r.content.tables[Items][id := v], id, false);
    }
  }

  lemma EntryMarked(r: RoleState, p: Part, id: int, deleted: bool)
    requires Shaped(r)
    ensures p in r.upserts && p in r.deletes && Shaped(MarkEntry(r, p, id, deleted))
  {
    hide SectionOf, IsAll, MarkEntry;
    MarkEntryShaped(r, p, r.content.tables[p], id, deleted);
    assert r.content.tables[p := r.content.tables[p]] == r.content.tables;
    assert SetTable(r, p, r.content.tables[p]) == r;
  }

  lemma TouchedKeeps(r: RoleState)
    requires Shaped(r)
    ensures Shaped(Touch(r, Basic)) && (SyncInv(r) ==> SyncInv(Touch(r, Basic)))
  {
    TouchEffect(r, Basic);
    if SyncInv(r) {
      TouchKeeps(r, r, Basic);
    }
    hide Touch, SyncInv;
  }

  /** Where `count` of an item goes when it arrives. */
  ghost predicate Added(r: RoleState, r': RoleState, basic: set<int>, direct: set<int>, exp: int,
                        id: int, count: int, kind: Kind, tracked: bool)
    requires Shaped(r) && Shaped(r')
  {
    if id in direct then OnlyMoved(r, r', basic, id, count) && Kept(r, r', basic, id, tracked, false)
    else if id == exp then r' == (if tracked then Touch(r, Basic) else r)
    else
      match kind
      case IconItem => EntryAdded(r, r', Icons, id, tracked)
      case FrameItem => EntryAdded(r, r', Frames, id, tracked)
      case OtherIcon => r' == r
      case _ => OnlyMoved(r, r', basic, id, count) && Kept(r, r', basic, id, tracked, false)
  }

  /** A new entry, with its red point unless the change is not tracked. */
  ghost predicate EntryAdded(r: RoleState, r': RoleState, p: Part, id: int, tracked: bool)
    requires Shaped(r)
  {
    var table := r.content.tables[p];
    r' == if tracked then SetEntry(r, p, id, 1) else SetTable(r, p, if id in table then table else table[id := 0])
  }

  lemma NewEntryAdded(r: RoleState, p: Part, id: int, tracked: bool)
    requires Shaped(r) && p != Currencies
    ensures var t := if id in r.content.tables[p] then r.content.tables[p] else r.content.tables[p][id := 0];
            var r1 := SetTable(r, p, if tracked then t[id := 1] else t);
            var r' := if tracked then MarkEntry(r1, p, id, false) else r1;
            Shaped(r1) && Shaped(r') && EntryAdded(r, r', p, id, tracked) && (tracked && SyncInv(r) ==> SyncInv(r'))
  {
    hide SyncInv, MarkEntry, SectionOf, RoleRuns.ChangedIn;
    var t := if id in r.content.tables[p] then r.content.tables[p] else r.content.tables[p][id := 0];
    assert t[id := 1] == r.content.tables[p][id := 1];
    RoleRuns.UpsertKeeps(r, p, id, 1);
    TableSetShaped(r, p, t);
    TableSetShaped(r, p, t[id := 1]);
  }

  /** After taking some of the aggregated counts from `r0`. */
  ghost predicate TookSome(r0: RoleState, r: RoleState, basic: set<int>, taken: map<int, int>, done: set<int>)
    requires Shaped(r0) && Shaped(r) && done <= taken.Keys
  {
    && (forall x :: x in done ==> Have(r, basic, x) == Have(r0, basic, x) - taken[x])
    && (forall x :: x !in done ==> Have(r, basic, x) == Have(r0, basic, x) && (Present(r, basic, x) <==> Present(r0, basic, x)))
  }

  lemma TookOneMore(r0: RoleState, r: RoleState, basic: set<int>, taken: map<int, int>, done: set<int>, id: int, tracked: bool)
    requires Shaped(r0) && Shaped(r) && done <= taken.Keys && id in taken && id !in done
    requires TookSome(r0, r, basic, taken, done)
    ensures var r' := CountSet(r, basic, id, Have(r, basic, id) - taken[id], tracked);
            && Shaped(r') && TookSome(r0, r', basic, taken, done + {id})
            && (tracked && SyncInv(r) ==> SyncInv(r'))
    ensures taken[id] == 0 ==> TookSome(r0, r, basic, taken, done + {id})
  {
    hide CountSet, Have, Present, SyncInv;
    CountSetMoves(r, basic, id, Have(r, basic, id) - taken[id], tracked);
  }

  lemma StillToTake(r0: RoleState, r: RoleState, basic: set<int>, taken: map<int, int>, done: set<int>, id: int)
    requires Shaped(r0) && Shaped(r) && done <= taken.Keys && id !in done
    requires TookSome(r0, r, basic, taken, done)
    ensures Present(r, basic, id) <==> Present(r0, basic, id)
    ensures !Present(r0, basic, id) ==> Have(r0, basic, id) == 0
  {
  }

  lemma SomeMember(s: set<int>)
    ensures s == {} || exists x :: x in s
  {
    assert (forall x :: x !in s) ==> s == {};
  }

  /** The loop over the upsert marks of one table; entries that are gone are skipped. */
  method BuildTablePatch(table: Table, ups: set<int>, dels: set<int>) returns (p: Patch)
    ensures p == BuildPatch(table, ups, dels)
  {
    var entries: Table := map[];
    var todo := ups;
    while todo != {}
      invariant todo <= ups
      invariant forall id :: id in entries <==> id in ups && id !in todo && id in table
      invariant forall id :: id in entries ==> entries[id] == table[id]
      decreases |todo|
    {
      SomeMember(todo);
      var id: int :| id in todo;
      if id in table {
        entries := entries[id := table[id]];
      }
      todo := todo - {id};
    }
    forall id: int
      ensures SameAt(entries, BuildPatch(table, ups, dels).upserts, id)
    {
    }
    SameEverywhere(entries, BuildPatch(table, ups, dels).upserts);
    p := Patch(entries, dels);
  }

  lemma ClearSyncedShaped(r: RoleState, full: Mask, patch: Mask)
    requires Shaped(r)
    ensures Shaped(ClearSynced(r, full, patch))
  {
    hide ClearSynced;
    ClearSyncedEffect(r, full, patch);
  }

  class Role {
    /** The ids of the currencies held in the basic section, those of them that are added without a look
        at their kind, and the id of experience. */
    const basic: set<int>
    const direct: set<int>
    const exp: int
    var content: Content
    var full: Mask
    var patch: Mask
    var upserts: map<Part, set<int>>
    var deletes: map<Part, set<int>>
    var equipDirty: bool
    var persistDirty: Mask
    var needPersist: bool
    // What the client and the store hold.
    var client: Content
    var stored: Content
    var written: Mask

    function Abs(): RoleState
      reads this
    {
      RoleState(content, client, full, patch, upserts, deletes, equipDirty, persistDirty, needPersist, stored, written)
    }

    ghost predicate Valid()
      reads this
    {
      Shaped(Abs())
    }

    method MarkFullSync(flag: Mask)
      modifies this`full, this`patch
      ensures Abs() == RoleSync.MarkFullSync(old(Abs()), flag)
    {
      if flag == {} {
        return;
      }
      if IsAll(flag) {
        full := flag;
        patch := {};
        return;
      }
      full := full + flag;
      patch := patch - flag;
    }

    method MarkPatchSection(s: Section)
      modifies this`patch
      ensures Abs() == RoleSync.MarkPatchSection(old(Abs()), s)
    {
      if IsAll(full) || s in full {
        return;
      }
      patch := patch + {s};
    }

    method MarkPersistSectionDirty(s: Section)
      modifies this`persistDirty, this`needPersist
      ensures Abs() == MarkPersist(old(Abs()), s)
    {
      persistDirty := persistDirty + {s};
      needPersist := true;
    }

    method MarkDirty(p: Part, id: int, deleted: bool)
      requires Valid()
      modifies this`patch, this`upserts, this`deletes, this`persistDirty, this`needPersist
      ensures Valid() && Abs() == MarkEntry(old(Abs()), p, id, deleted)
    {
      hide SectionOf, IsAll, Shaped, RoleSync.MarkPatchSection;
      EntryMarked(Abs(), p, id, deleted);
      MarkPatchSection(SectionOf(p));
      if deleted {
        upserts := upserts[p := upserts[p] - {id}];
        deletes := deletes[p := deletes[p] + {id}];
      } else {
        deletes := deletes[p := deletes[p] - {id}];
        upserts := upserts[p := upserts[p] + {id}];
      }
      MarkPersistSectionDirty(SectionOf(p));
    }

    method TouchSection(s: Section)
      modifies this`full, this`patch, this`persistDirty, this`needPersist
      ensures Abs() == Touch(old(Abs()), s)
    {
      MarkFullSync({s});
      MarkPersistSectionDirty(s);
    }

    /** Forget the marks of the sections in `sent`. */
    method ForgetMarks(sent: Mask)
      modifies this`upserts, this`deletes, this`equipDirty
      ensures upserts == map p | p in old(upserts) :: if SectionOf(p) in sent then {} else old(upserts)[p]
      ensures deletes == map p | p in old(deletes) :: if SectionOf(p) in sent then {} else old(deletes)[p]
      ensures equipDirty == (old(equipDirty) && Icon !in sent)
    {
      upserts := map p | p in upserts :: if SectionOf(p) in sent then {} else upserts[p];
      deletes := map p | p in deletes :: if SectionOf(p) in sent then {} else deletes[p];
      if Icon in sent {
        equipDirty := false;
      }
    }

    method ForgetAll()
      modifies this`full, this`patch, this`upserts, this`deletes, this`equipDirty
      ensures full == {} && patch == {} && !equipDirty
      ensures upserts == map p | p in old(upserts) :: {}
      ensures deletes == map p | p in old(deletes) :: {}
    {
      full := {};
      patch := {};
      upserts := map p | p in upserts :: {};
      deletes := map p | p in deletes :: {};
      equipDirty := false;
    }

    method ClearSyncedState(fullMask: Mask, patchMask: Mask)
      requires Valid()
      modifies this`full, this`patch, this`upserts, this`deletes, this`equipDirty
      ensures Valid() && Abs() == ClearSynced(old(Abs()), fullMask, patchMask)
    {
      hide SectionOf, IsAll, Shaped;
      ClearSyncedShaped(Abs(), fullMask, patchMask);
      if IsAll(fullMask) {
        ForgetAll();
        return;
      }
      full := full - fullMask;
      patch := patch - patchMask;
      patch := patch - fullMask;
      ForgetMarks(fullMask + patchMask);
    }

    method PrepareSyncMasks(usePatch: bool) returns (fullMask: Mask, requested: Mask)
      ensures (fullMask, requested) == SyncMasks(Abs(), usePatch)
    {
      fullMask, requested := full, set s | s in patch && Patchable(s);
      if !usePatch {
        fullMask := fullMask + requested;
        requested := {};
      } else if IsAll(fullMask) {
        requested := {};
      } else {
        requested := requested - fullMask;
      }
    }

    /** `usePatch`: patch mode is on for this role now; `online`: it has a connection; `sendOk`: a
        message, if one is sent, gets through. */
    method FlushClientSync(usePatch: bool, online: bool, sendOk: bool) returns (result: FlushResult)
      requires Valid()
      modifies this
      ensures Valid() && (Abs(), result) == Flush(old(Abs()), usePatch, online, sendOk)
    {
      hide SyncMasks, ActualPatchMask, BuildPayload, ClearSynced, Receive, IsAll;
      RoleRuns.FlushFrame(Abs(), usePatch, online, sendOk);
      var fullMask, requested := PrepareSyncMasks(usePatch);
      if fullMask == {} && requested == {} {
        return NothingToDo;
      }
      if !online {
        return Offline;
      }
      var actual := ActualPatchMask(Abs(), requested);
      if fullMask == {} && actual == {} {
        ClearSyncedState({}, requested);
        return NothingDirty;
      }
      if !sendOk {
        return SendFailed;
      }
      RoleRuns.ReceivedField(Abs(), fullMask, requested, Basic);
      client := Receive(client, BuildPayload(Abs(), fullMask, requested));
      ClearSyncedState(fullMask, requested);
      return Sent;
    }

    method WriteMask(force: bool) returns (mask: Mask)
      ensures mask == RoleRuns.SaveMask(Abs(), force)
    {
      mask := persistDirty;
      if force || mask == {} {
        mask := ALL;
      }
    }

    /** saveRoleHash; `fails`: the sections whose write would fail. Only a forced save writes the gift
        section, which has no mark; `giftFails`: its write would fail. */
    method SaveRoleHash(force: bool, fails: Mask, gift: Option<int>, giftFails: bool)
      returns (ok: bool, giftWritten: Option<int>)
      requires Valid()
      modifies this`stored, this`written
      ensures Valid()
      ensures var (r', done) := RoleRuns.WriteFrom(old(Abs()), RoleRuns.SaveMask(old(Abs()), force), fails, RoleRuns.ACCESSORS);
              Abs() == r' && ok == (done && !(force && gift.Some? && giftFails))
      ensures giftWritten == if ok && force then gift else None
    {
      hide RoleRuns.WriteFrom, RoleRuns.SaveMask, RoleRuns.StoredNow;
      giftWritten := None;
      ok := WriteSections(force, fails);
      if ok && force && gift.Some? {
        if giftFails {
          return false, None;
        }
        giftWritten := gift;
      }
    }

    method WriteSections(force: bool, fails: Mask) returns (ok: bool)
      requires Valid()
      modifies this`stored, this`written
      ensures Valid()
      ensures (Abs(), ok) == RoleRuns.WriteFrom(old(Abs()), RoleRuns.SaveMask(old(Abs()), force), fails, RoleRuns.ACCESSORS)
    {
      hide RoleRuns.WriteFrom, RoleRuns.SaveMask, RoleRuns.StoredNow;
      var mask := WriteMask(force);
      var i := 0;
      RoleRuns.WholeOrder();
      while i < |RoleRuns.ACCESSORS|
        invariant 0 <= i <= |RoleRuns.ACCESSORS| && Valid()
        invariant RoleRuns.WriteFrom(Abs(), mask, fails, RoleRuns.ACCESSORS[i..])
                  == RoleRuns.WriteFrom(old(Abs()), mask, fails, RoleRuns.ACCESSORS)
      {
        RoleRuns.WriteStep(Abs(), mask, fails, i);
        var s := RoleRuns.ACCESSORS[i];
        if s in mask {
          if s in fails {
            return false;
          }
          RoleRuns.WriteSectionEffect(Abs(), s);
          stored := CopySections(stored, content, {s});
          written := written + {s};
        }
        i := i + 1;
      }
      RoleRuns.WriteNothing(Abs(), mask, fails);
      return true;
    }

    /** `sameUid`: the transaction runs for the role's own user. */
    method SaveToDB(sameUid: bool, fails: Mask) returns (ok: bool)
      requires Valid()
      modifies this
      ensures Valid()
      ensures (Abs(), ok) == if sameUid then RoleRuns.Save(old(Abs()), false, fails) else (old(Abs()), false)
    {
      hide RoleRuns.WriteFrom, RoleRuns.SaveMask, RoleRuns.StoredNow, RoleRuns.AllStored;
      if !sameUid {
        return false;
      }
      RoleRuns.SaveEffect(Abs(), false, fails);
      var giftWritten;
      ok, giftWritten := SaveRoleHash(false, fails, None, false);
      if ok {
        persistDirty := {};
      }
    }

    /** A failure to write the gift section leaves all sections written and all marks set. */
    method SaveToDBSync(fails: Mask, gift: Option<int>, giftFails: bool) returns (ok: bool, giftWritten: Option<int>)
      requires Valid()
      modifies this
      ensures Valid()
      ensures ok <==> RoleRuns.Save(old(Abs()), true, fails).1 && !(gift.Some? && giftFails)
      ensures Abs() == if gift.Some? && giftFails then RoleRuns.WriteFrom(old(Abs()), ALL, fails, RoleRuns.ACCESSORS).0
                       else RoleRuns.Save(old(Abs()), true, fails).0
      ensures giftWritten == if ok then gift else None
    {
      hide RoleRuns.WriteFrom, RoleRuns.StoredNow, RoleRuns.AllStored;
      RoleRuns.SaveEffect(Abs(), true, fails);
      ok, giftWritten := SaveRoleHash(true, fails, gift, giftFails);
      if ok {
        needPersist := false;
        persistDirty := {};
      }
    }

    /** `sameUid`: as for SaveToDB. */
    method MaybeFlushPersist(sameUid: bool, force: bool, due: bool, fails: Mask) returns (ok: bool)
      requires Valid()
      modifies this
      ensures Valid()
      ensures sameUid ==> (Abs(), ok) == RoleRuns.FlushPersist(old(Abs()), force, due, fails)
      ensures !sameUid ==> Abs() == old(Abs()) && (ok <==> !old(needPersist) || !(force || due))
    {
      if !needPersist || !(force || due) {
        return true;
      }
      ok := SaveToDB(sameUid, fails);
      if ok {
        needPersist := false;
      }
    }

    // ---- items --------------------------------------------------------------------------------------

    method ItemRemove(id: int)
      requires Valid()
      modifies this
      ensures Valid() && Abs() == DeleteEntry(old(Abs()), Items, id)
    {
      content := content.(tables := content.tables[Items := content.tables[Items] - {id}]);
      MarkDirty(Items, id, true);
    }

    method TrackItemMutation(id: int, tracked: bool)
      requires Valid()
      modifies this
      ensures Valid()
      ensures Abs() == if !tracked then old(Abs())
                       else if id in basic then Touch(old(Abs()), Basic)
                       else MarkEntry(old(Abs()), Items, id, false)
    {
      if !tracked {
        return;
      }
      if id in basic {
        TouchEffect(Abs(), Basic);
        TouchSection(Basic);
        return;
      }
      MarkDirty(Items, id, false);
    }

    /** An assignment through the reference of ItemGetCountRef. */
    method PutCountRef(id: int, v: int)
      requires Valid()
      modifies this`content
      ensures Valid() && Abs() == PutCount(old(Abs()), basic, id, v)
    {
      PutCountMoves(Abs(), basic, id, v);
      if id in basic {
        content := content.(tables := content.tables[Currencies := content.tables[Currencies][id := v]]);
      } else {
        content := content.(tables := content.tables[Items := content.tables[Items][id := v]]);
      }
    }

    /** `*ref -= count` and what follows it, in ItemReduce and ItemsReduce alike. */
    method TakeFrom(id: int, count: int, tracked: bool)
      requires Valid() && Present(Abs(), basic, id)
      modifies this
      ensures Valid()
      ensures Abs() == CountSet(old(Abs()), basic, id, Have(old(Abs()), basic, id) - count, tracked)
    {
      var left := Have(Abs(), basic, id) - count;
      CountSetMoves(Abs(), basic, id, left, tracked);
      PutCountMoves(Abs(), basic, id, left);
      CountSetSplit(Abs(), basic, id, left, tracked);
      hide CountSet, PutCount, Touch, MarkEntry, DeleteEntry, SyncInv, Have, SectionOf, OnlyMoved, Present;
      PutCountRef(id, left);
      if left == 0 {
        if id in basic {
          TouchSection(Basic);
        } else {
          ItemRemove(id);
        }
      } else {
        TrackItemMutation(id, tracked);
      }
    }

    method AddEntry(p: Part, id: int, tracked: bool)
      requires Valid() && p != Currencies
      modifies this
      ensures Valid() && (tracked && SyncInv(old(Abs())) ==> SyncInv(Abs()))
      ensures EntryAdded(old(Abs()), Abs(), p, id, tracked)
    {
      hide SyncInv, MarkEntry, SectionOf, EntryAdded;
      NewEntryAdded(Abs(), p, id, tracked);
      var table := content.tables[p];
      if id !in table {
        table := table[id := 0];
      }
      if tracked {
        table := table[id := 1];
      }
      content := content.(tables := content.tables[p := table]);
      if tracked {
        MarkDirty(p, id, false);
      }
    }

    /** itemDoAdd, for an item that is not used on arrival. `maxOwn`: how many a role may own, or 0. A
        currency has no such limit. */
    method ItemDoAdd(id: int, count: int, kind: Kind, maxOwn: int, tracked: bool) returns (code: Code)
      requires Valid()
      modifies this
      ensures Valid()
      ensures code == if count == 0 then Done
                      else if kind.Unknown? then Fault
                      else if count < 0 then BadArgument
                      else if id !in basic && 0 < maxOwn < Have(old(Abs()), basic, id) + count then OverLimit
                      else Done
      ensures count == 0 || !code.Done? ==> Abs() == old(Abs())
      ensures code.Done? && count != 0 ==> Added(old(Abs()), Abs(), basic, direct, exp, id, count, kind, tracked)
      ensures tracked && SyncInv(old(Abs())) ==> SyncInv(Abs())
    {
      if count == 0 {
        return Done;
      }
      if kind.Unknown? {
        return Fault;
      }
      if count < 0 {
        return BadArgument;
      }
      if id !in basic && 0 < maxOwn < Have(Abs(), basic, id) + count {
        return OverLimit;
      }
      hide OnlyMoved, Kept, SyncInv, Have, Touch, SetEntry, SetTable, Shaped;
      if id in direct {
        AddCount(id, count, tracked);
      } else if id == exp {
        if tracked {
          TouchedKeeps(Abs());
          TouchSection(Basic);
        }
      } else {
        match kind
        case IconItem => AddEntry(Icons, id, tracked);
        case FrameItem => AddEntry(Frames, id, tracked);
        case OtherIcon =>
        case Plain => AddCount(id, count, tracked);
      }
      return Done;
    }

    method AddCount(id: int, count: int, tracked: bool)
      requires Valid() && count > 0
      modifies this
      ensures Valid() && OnlyMoved(old(Abs()), Abs(), basic, id, count)
      ensures Kept(old(Abs()), Abs(), basic, id, tracked, false)
      ensures tracked && SyncInv(old(Abs())) ==> SyncInv(Abs())
    {
      var sum := Have(Abs(), basic, id) + count;
      PutCountMoves(Abs(), basic, id, sum);
      MarkedCount(Abs(), basic, id, sum);
      PutAndNoted(Abs(), basic, id, sum);
      hide PutCount, Touch, MarkEntry, SyncInv, Have, SectionOf, OnlyMoved, Kept;
      PutCountRef(id, sum);
      TrackItemMutation(id, tracked);
    }

    /** ItemReduce. `tracked`: the reason is none or not the initial one. A negative count of an item the
        role does not hold dereferences nil. */
    method ItemReduce(id: int, count: int, tracked: bool) returns (code: Code)
      requires Valid()
      modifies this
      ensures Valid()
      ensures code == if count == 0 then Done
                      else if Have(old(Abs()), basic, id) < count then NotEnough
                      else if !Present(old(Abs()), basic, id) then Crash
                      else Done
      ensures code.Crash? ==> count < 0
      ensures count == 0 || !code.Done? ==> Abs() == old(Abs())
      ensures code.Done? ==> OnlyMoved(old(Abs()), Abs(), basic, id, -count)
      ensures code.Done? && count != 0 ==> (Present(Abs(), basic, id) <==> id in basic || Have(Abs(), basic, id) != 0)
      ensures code.Done? && count != 0 ==>
                var gone := Have(Abs(), basic, id) == 0; Kept(old(Abs()), Abs(), basic, id, tracked || gone, gone)
      ensures tracked && SyncInv(old(Abs())) ==> SyncInv(Abs())
    {
      hide SyncInv, CountSet, OnlyMoved, Kept, Have, Present;
      TakenFrom(Abs(), basic, id, count, tracked);
      if count == 0 {
        return Done;
      }
      if Have(Abs(), basic, id) < count {
        return NotEnough;
      }
      if !Present(Abs(), basic, id) {
        return Crash;
      }
      TakeFrom(id, count, tracked);
      return Done;
    }

    /** itemAggregate: the counts of equal ids are added up. */
    method ItemAggregate(items: seq<Stack>) returns (m: map<int, int>)
      ensures forall id :: id in m <==> exists i :: 0 <= i < |items| && items[i].id == id
      ensures forall id :: Asked(items, id) == if id in m then m[id] else 0
    {
      m := map[];
      var i := 0;
      while i < |items|
        invariant 0 <= i <= |items|
        invariant forall id :: id in m <==> exists j :: 0 <= j < i && items[j].id == id
        invariant forall id :: Asked(items[..i], id) == if id in m then m[id] else 0
      {
        assert items[..i + 1][..i] == items[..i];
        var s := items[i];
        if s.id in m {
          m := m[s.id := m[s.id] + s.count];
        } else {
          m := m[s.id := s.count];
        }
        i := i + 1;
      }
      assert items[..i] == items;
    }

    method ItemsCheckReduce(m: map<int, int>) returns (code: Code)
      requires Valid()
      ensures code == NotEnough || code == Done
      ensures code.Done? <==> forall id :: id in m && m[id] != 0 ==> Have(Abs(), basic, id) >= m[id]
    {
      var todo := m.Keys;
      while todo != {}
        invariant todo <= m.Keys
        invariant forall id :: id in m && id !in todo && m[id] != 0 ==> Have(Abs(), basic, id) >= m[id]
        decreases |todo|
      {
        SomeMember(todo);
        var id: int :| id in todo;
        if m[id] != 0 && Have(Abs(), basic, id) < m[id] {
          return NotEnough;
        }
        todo := todo - {id};
      }
      return Done;
    }

    /** The second loop of ItemsReduce. */
    method TakeAll(m: map<int, int>, tracked: bool) returns (ok: bool)
      requires Valid() && forall id :: id in m && m[id] != 0 ==> Have(Abs(), basic, id) >= m[id]
      modifies this
      ensures Valid()
      ensures ok ==> TookSome(old(Abs()), Abs(), basic, m, m.Keys)
      ensures ok <==> forall id :: id in m && m[id] < 0 ==> Present(old(Abs()), basic, id)
      ensures tracked && SyncInv(old(Abs())) ==> SyncInv(Abs())
    {
      ghost var r0 := Abs();
      var todo := m.Keys;
      hide SyncInv, CountSet, Have;
      while todo != {}
        invariant Valid() && todo <= m.Keys
        invariant TookSome(r0, Abs(), basic, m, m.Keys - todo)
        invariant forall id :: id in m && id !in todo && m[id] < 0 ==> Present(r0, basic, id)
        invariant tracked && SyncInv(r0) ==> SyncInv(Abs())
        decreases |todo|
      {
        hide TookSome, Present;
        SomeMember(todo);
        var id: int :| id in todo;
        StillToTake(r0, Abs(), basic, m, m.Keys - todo, id);
        TookOneMore(r0, Abs(), basic, m, m.Keys - todo, id, tracked);
        assert m.Keys - todo + {id} == m.Keys - (todo - {id});
        if m[id] != 0 {
          if !Present(Abs(), basic, id) {
            return false;
          }
          TakeFrom(id, m[id], tracked);
        }
        todo := todo - {id};
      }
      assert m.Keys - todo == m.Keys;
      return true;
    }

    /** ItemsReduce. Nothing is taken when any count is short; otherwise every id loses exactly what
        the list asks for in all, unless the list asks for a negative amount of an item the role does
        not hold: then the call fails, perhaps with some of the list already taken. */
    method ItemsReduce(items: seq<Stack>, tracked: bool) returns (code: Code)
      requires Valid()
      modifies this
      ensures Valid()
      ensures code == NotEnough || code == Done || code == Fault
      ensures code.NotEnough? <==> exists id :: Asked(items, id) != 0 && Have(old(Abs()), basic, id) < Asked(items, id)
      ensures code.NotEnough? ==> Abs() == old(Abs())
      ensures !code.NotEnough? ==>
                (code.Fault? <==> exists id :: Asked(items, id) < 0 && !Present(old(Abs()), basic, id))
      ensures code.Done? ==> forall id :: Have(Abs(), basic, id) == Have(old(Abs()), basic, id) - Asked(items, id)
      ensures tracked && SyncInv(old(Abs())) ==> SyncInv(Abs())
    {
      var m := ItemAggregate(items);
      hide SyncInv, Have, Present;
      if |items| == 0 {
        assert items == [];
        return Done;
      }
      code := ItemsCheckReduce(m);
      if code.NotEnough? {
        var id :| id in m && m[id] != 0 && Have(Abs(), basic, id) < m[id];
        assert Asked(items, id) == m[id];
        return;
      }
      var ok := TakeAll(m, tracked);
      if !ok {
        ghost var id :| id in m && m[id] < 0 && !Present(old(Abs()), basic, id);
        assert Asked(items, id) == m[id];
        return Fault;
      }
      return Done;
    }
  }
}
