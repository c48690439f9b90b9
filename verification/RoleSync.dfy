/** Delta sync of a role to its client and incremental persistence of its sections
    (src/mainsvr/role/sync_state.go, src/mainsvr/role/persist_hash.go). */
module RoleSync {
  import opened Options

  datatype Section =
    | Register | Login | Game | Basic | Inventory | Icon | Mall | MainTask | Guild | Guide | OpenFunc | ActivityTask

  type Mask = set<Section>

  const ALL: Mask :=
    {Register, Login, Game, Basic, Inventory, Icon, Mall, MainTask, Guild, Guide, OpenFunc, ActivityTask}

  predicate IsAll(m: Mask): (all: bool)
    ensures all ==> forall s: Section :: s in m
  {
    EverySection();
    m == ALL
  }

  lemma EverySection()
    ensures forall s: Section :: s in ALL
  {
    forall s: Section
      ensures s in ALL
    {
      match s
      case Register =>
      case _ =>
    }
  }

  /** The sections that can be sent as a patch. */
  predicate Patchable(s: Section) {
    s.Inventory? || s.Icon? || s.Mall? || s.ActivityTask?
  }

  /** The keyed tables of a role. Currencies live in the basic section and are never patched. */
  datatype Part = Currencies | Items | MallItems | Icons | Frames | Tasks

  function SectionOf(p: Part): Section {
    match p
    case Currencies => Basic
    case Items => Inventory
    case MallItems => Mall
    case Icons => Icon
    case Frames => Icon
    case Tasks => ActivityTask
  }

  type Table = map<int, int>

  /** The contents of a role: its tables, the equipped icon and frame, and whatever else is in each
      section. */
  datatype Content = Content(tables: map<Part, Table>, equip: int, rest: map<Section, int>)

  ghost predicate Whole(c: Content) {
    (forall p: Part :: p in c.tables) && (forall s: Section :: s in c.rest)
  }

  ghost predicate SameSection(a: Content, b: Content, s: Section)
    requires Whole(a) && Whole(b)
  {
    && (forall p: Part :: SectionOf(p) == s ==> a.tables[p] == b.tables[p])
    && (s == Icon ==> a.equip == b.equip)
    && a.rest[s] == b.rest[s]
  }

  /** `dst` with the sections of `mask` taken from `src`. */
  function CopySections(dst: Content, src: Content, mask: Mask): (c: Content)
    requires dst.tables.Keys == src.tables.Keys && dst.rest.Keys == src.rest.Keys
    ensures c.tables.Keys == dst.tables.Keys && c.rest.Keys == dst.rest.Keys
  {
    Content(map p | p in dst.tables :: if SectionOf(p) in mask then src.tables[p] else dst.tables[p],
            if Icon in mask then src.equip else dst.equip,
            map s | s in dst.rest :: if s in mask then src.rest[s] else dst.rest[s])
  }

  // ---- patches ------------------------------------------------------------------------------------

  datatype Patch = Patch(upserts: Table, deletes: set<int>)

  /** buildInventoryPatch and its siblings: an upsert mark of an absent entry is skipped. */
  function BuildPatch(table: Table, upserts: set<int>, deletes: set<int>): Patch {
    Patch(map id | id in upserts && id in table :: table[id], deletes)
  }

  predicate IsEmpty(p: Patch) {
    p.upserts == map[] && p.deletes == {}
  }

  function ApplyPatch(table: Table, p: Patch): Table {
    (table + p.upserts) - p.deletes
  }

  ghost predicate SameAt(a: Table, b: Table, id: int) {
    if id in a then id in b && a[id] == b[id] else id !in b
  }

  /** Server and client agree but for the marked entries, and the marks say how the server stands. */
  ghost predicate TableSynced(server: Table, client: Table, upserts: set<int>, deletes: set<int>) {
    forall id :: id !in upserts && id !in deletes ==> SameAt(server, client, id)
  }

  ghost predicate MarksOk(server: Table, upserts: set<int>, deletes: set<int>) {
    && (forall id :: id in upserts ==> id in server)
    && (forall id :: id in deletes ==> id !in server)
  }

  /** A patch brings the client's table to the server's, whichever half is applied first. */
  lemma PatchSyncs(server: Table, client: Table, upserts: set<int>, deletes: set<int>)
    requires MarksOk(server, upserts, deletes) && TableSynced(server, client, upserts, deletes)
    ensures var p := BuildPatch(server, upserts, deletes);
            ApplyPatch(client, p) == server && (client - p.deletes) + p.upserts == server
  {
    var p := BuildPatch(server, upserts, deletes);
    var c1, c2 := ApplyPatch(client, p), (client - p.deletes) + p.upserts;
    forall id
      ensures SameAt(server, c1, id) && SameAt(server, c2, id)
    {
      if id !in upserts && id !in deletes {
        assert SameAt(server, client, id);
      }
    }
    SameEverywhere(server, c1);
    SameEverywhere(server, c2);
  }

  lemma SameEverywhere(a: Table, b: Table)
    requires forall id :: SameAt(a, b, id)
    ensures a == b
  {
    forall id
      ensures id in a <==> id in b
      ensures id in a ==> a[id] == b[id]
    {
      assert SameAt(a, b, id);
    }
  }

  /** What one sync message carries. */
  datatype Payload = Payload(full: Mask, info: Content, patches: map<Part, Patch>, equip: Option<int>)

  /** The client applies a message: whole sections first, then patches. */
  function Receive(client: Content, m: Payload): Content
    requires client.tables.Keys == m.info.tables.Keys && client.rest.Keys == m.info.rest.Keys
  {
    var c := CopySections(client, m.info, m.full);
    c.(tables := map p | p in c.tables :: if p in m.patches then ApplyPatch(c.tables[p], m.patches[p]) else c.tables[p],
       equip := if m.equip.Some? then m.equip.value else c.equip)
  }

  // ---- the role -----------------------------------------------------------------------------------

  /** A role with its pending marks, a client that applies every message that was sent, and the
      sections as they are stored. */
  datatype RoleState = RoleState(
    content: Content,
    client: Content,
    full: Mask,
    patch: Mask,
    upserts: map<Part, set<int>>,
    deletes: map<Part, set<int>>,
    equipDirty: bool,
    persistDirty: Mask,
    needPersist: bool,
    stored: Content,
    written: Mask)

  function MarkFullSync(r: RoleState, flag: Mask): RoleState {
    if flag == {} then r
    else if IsAll(flag) then r.(full := flag, patch := {})
    else r.(full := r.full + flag, patch := r.patch - flag)
  }

  function MarkPatchSection(r: RoleState, s: Section): RoleState {
    if IsAll(r.full) || s in r.full then r else r.(patch := r.patch + {s})
  }

  function MarkPersist(r: RoleState, s: Section): RoleState {
    r.(persistDirty := r.persistDirty + {s}, needPersist := true)
  }

  /** MarkInventoryDirty, MarkMallDirty, MarkIconDirty, MarkFrameDirty, MarkActvityTaskDirty. */
  function MarkEntry(r: RoleState, p: Part, id: int, deleted: bool): RoleState
    requires p in r.upserts && p in r.deletes
  {
    var r1 := MarkPatchSection(r, SectionOf(p));
    var r2 :=
      if deleted then
        r1.(upserts := r1.upserts[p := r1.upserts[p] - {id}], deletes := r1.deletes[p := r1.deletes[p] + {id}])
      else
        r1.(deletes := r1.deletes[p := r1.deletes[p] - {id}], upserts := r1.upserts[p := r1.upserts[p] + {id}]);
    MarkPersist(r2, SectionOf(p))
  }

  function MarkIconEquip(r: RoleState): RoleState {
    MarkPersist(MarkPatchSection(r, Icon).(equipDirty := true), Icon)
  }

  /** TouchBasicInfo, TouchGameInfo, TouchGuideInfo, TouchOpenFuncInfo, TouchMainTaskInfo. */
  function Touch(r: RoleState, s: Section): RoleState {
    MarkPersist(MarkFullSync(r, {s}), s)
  }

  function TouchActvityTaskInfo(r: RoleState): RoleState {
    MarkPersist(MarkPatchSection(r, ActivityTask), ActivityTask)
  }

  predicate Marked(r: RoleState) {
    forall p: Part :: p in r.content.tables && p in r.upserts && p in r.deletes
  }

  /** Whether the patch of a section has anything in it. */
  predicate SectionPatched(r: RoleState, s: Section)
    requires Marked(r)
  {
    || (exists p: Part :: SectionOf(p) == s && !IsEmpty(BuildPatch(r.content.tables[p], r.upserts[p], r.deletes[p])))
    || (s == Icon && r.equipDirty)
  }

  function ActualPatchMask(r: RoleState, requested: Mask): Mask
    requires Marked(r)
  {
    set s | s in requested && SectionPatched(r, s)
  }

  /** The full and patch masks prepareSyncPayload settles on. */
  function SyncMasks(r: RoleState, usePatch: bool): (Mask, Mask) {
    var requested := set s | s in r.patch && Patchable(s);
    if !usePatch then (r.full + requested, {})
    else if IsAll(r.full) then (r.full, {})
    else (r.full, requested - r.full)
  }

  function BuildPayload(r: RoleState, full: Mask, requested: Mask): Payload
    requires Marked(r)
  {
    var actual := ActualPatchMask(r, requested);
    Payload(full, r.content,
            map p | p in r.upserts && SectionOf(p) in actual :: BuildPatch(r.content.tables[p], r.upserts[p], r.deletes[p]),
            if Icon in actual && r.equipDirty then Some(r.content.equip) else None)
  }

  /** clearSyncedState. */
  function ClearSynced(r: RoleState, full: Mask, patch: Mask): RoleState {
    if IsAll(full) then
      r.(full := {}, patch := {}, upserts := map p | p in r.upserts :: {}, deletes := map p | p in r.deletes :: {},
         equipDirty := false)
    else
      var sent := full + patch;
      r.(full := r.full - full, patch := r.patch - patch - full,
         upserts := map p | p in r.upserts :: if SectionOf(p) in sent then {} else r.upserts[p],
         deletes := map p | p in r.deletes :: if SectionOf(p) in sent then {} else r.deletes[p],
         equipDirty := r.equipDirty && Icon !in sent)
  }

  datatype FlushResult = NothingToDo | Offline | SendFailed | Sent | NothingDirty

  /** FlushClientSync. `usePatch`: patch mode is on for this role now; `online`: it has a connection;
      `sendOk`: the message, if one is sent, gets through. */
  function Flush(r: RoleState, usePatch: bool, online: bool, sendOk: bool): (RoleState, FlushResult)
    requires Shaped(r)
  {
    var (full, requested) := SyncMasks(r, usePatch);
    if full == {} && requested == {} then (r, NothingToDo)
    else if !online then (r, Offline)
    else if full == {} && ActualPatchMask(r, requested) == {} then (ClearSynced(r, {}, requested), NothingDirty)
    else if !sendOk then (r, SendFailed)
    else (ClearSynced(r.(client := Receive(r.client, BuildPayload(r, full, requested))), full, requested), Sent)
  }

  // ---- the sync invariant ---------------------------------------------------------------------------

  ghost predicate Shaped(r: RoleState) {
    Whole(r.content) && Whole(r.client) && Whole(r.stored) && Marked(r)
  }

  /** The marks of a table are disjoint and covered by one of the two masks; without a pending full
      sync of its section, they are true and cover every difference between server and client. */
  ghost predicate TableOk(r: RoleState, p: Part)
    requires Shaped(r)
  {
    && r.upserts[p] !! r.deletes[p]
    && (r.upserts[p] + r.deletes[p] != {} ==> SectionOf(p) in r.full || SectionOf(p) in r.patch)
    && (SectionOf(p) !in r.full ==>
          && MarksOk(r.content.tables[p], r.upserts[p], r.deletes[p])
          && TableSynced(r.content.tables[p], r.client.tables[p], r.upserts[p], r.deletes[p]))
  }

  ghost predicate TablesOk(r: RoleState)
    requires Shaped(r)
  {
    forall p: Part :: TableOk(r, p)
  }

  ghost predicate MasksOk(r: RoleState) {
    && r.full !! r.patch && (forall s :: s in r.patch ==> Patchable(s))
    && (r.equipDirty ==> Icon in r.full || Icon in r.patch)
  }

  /** Sections that are not pending as a whole agree in everything outside their tables. */
  ghost predicate RestOk(r: RoleState)
    requires Shaped(r)
  {
    && (Icon in r.full || r.equipDirty || r.client.equip == r.content.equip)
    && (forall s: Section :: s !in r.full ==> r.client.rest[s] == r.content.rest[s])
  }

  ghost predicate SyncInv(r: RoleState)
    requires Shaped(r)
  {
    TablesOk(r) && MasksOk(r) && RestOk(r)
  }

  // ---- marks and changes ------------------------------------------------------------------------

  function SetTable(r: RoleState, p: Part, t: Table): RoleState {
    r.(content := r.content.(tables := r.content.tables[p := t]))
  }

  /** A tracked change of one entry of a table and its mark. */
  function SetEntry(r: RoleState, p: Part, id: int, v: int): RoleState
    requires Tabled(r, p)
  {
    MarkEntry(SetTable(r, p, r.content.tables[p][id := v]), p, id, false)
  }

  function DeleteEntry(r: RoleState, p: Part, id: int): RoleState
    requires Tabled(r, p)
  {
    MarkEntry(SetTable(r, p, r.content.tables[p] - {id}), p, id, true)
  }

  predicate Tabled(r: RoleState, p: Part) {
    p in r.content.tables && p in r.upserts && p in r.deletes
  }

  /** Currencies are part of the basic section, which is always sent as a whole. */
  function SetCurrency(r: RoleState, id: int, v: int): RoleState
    requires Currencies in r.content.tables
  {
    Touch(SetTable(r, Currencies, r.content.tables[Currencies][id := v]), Basic)
  }

  function SetEquip(r: RoleState, v: int): RoleState {
    MarkIconEquip(r.(content := r.content.(equip := v)))
  }

  function SetRest(r: RoleState, s: Section, v: int): RoleState {
    Touch(r.(content := r.content.(rest := r.content.rest[s := v])), s)
  }

  /** A table whose marks are untouched stays in order when its section's masks only grow. */
  lemma TableOkStays(r: RoleState, r': RoleState, p: Part)
    requires Shaped(r) && Shaped(r') && TableOk(r, p)
    requires r'.content.tables[p] == r.content.tables[p] && r'.client.tables[p] == r.client.tables[p]
    requires r'.upserts[p] == r.upserts[p] && r'.deletes[p] == r.deletes[p]
    requires SectionOf(p) in r.full || SectionOf(p) in r.patch ==> SectionOf(p) in r'.full || SectionOf(p) in r'.patch
    requires SectionOf(p) in r.full ==> SectionOf(p) in r'.full
    ensures TableOk(r', p)
  {
  }

  lemma TablesAfterMasks(r: RoleState, r': RoleState)
    requires Shaped(r) && Shaped(r') && TablesOk(r)
    requires r'.content.tables == r.content.tables && r'.client.tables == r.client.tables
    requires r'.upserts == r.upserts && r'.deletes == r.deletes
    requires r.full <= r'.full && r.patch <= r'.full + r'.patch
    ensures TablesOk(r')
  {
    hide TableOk, SectionOf;
    forall p: Part
      ensures TableOk(r', p)
    {
      TableOkStays(r, r', p);
    }
  }

  lemma FullSyncEffect(r: RoleState, flag: Mask)
    requires r.full !! r.patch
    ensures var r' := MarkFullSync(r, flag);
            && r' == r.(full := r'.full, patch := r'.patch)
            && r'.full !! r'.patch && r.full <= r'.full && r'.patch <= r.patch && r.patch <= r'.full + r'.patch
            && flag <= r'.full
  {
  }

  lemma FullSyncKeeps(r: RoleState, flag: Mask)
    requires Shaped(r) && SyncInv(r)
    ensures Shaped(MarkFullSync(r, flag)) && SyncInv(MarkFullSync(r, flag))
  {
    FullSyncEffect(r, flag);
    hide MarkFullSync, IsAll, TablesOk, Patchable, SectionOf;
    TablesAfterMasks(r, MarkFullSync(r, flag));
  }

  /** What MarkEntry leaves: the entry moves between the two mark sets and the section is pending. */
  lemma MarkEntryEffect(r: RoleState, p: Part, t: Table, id: int, deleted: bool)
    requires Shaped(r)
    ensures var r' := MarkEntry(SetTable(r, p, t), p, id, deleted);
            && Shaped(r') && r'.client == r.client && r'.full == r.full && r'.equipDirty == r.equipDirty
            && r'.content.equip == r.content.equip && r'.content.rest == r.content.rest
            && (r'.patch == r.patch || r'.patch == r.patch + {SectionOf(p)})
            && (SectionOf(p) in r'.full || (SectionOf(p) in r'.patch))
            && (SectionOf(p) in r.full ==> r'.patch == r.patch)
            && r'.content.tables == r.content.tables[p := t]
            && r'.upserts == r.upserts[p := if deleted then r.upserts[p] - {id} else r.upserts[p] + {id}]
            && r'.deletes == r.deletes[p := if deleted then r.deletes[p] + {id} else r.deletes[p] - {id}]
  {
    hide SectionOf, IsAll, Shaped, MarkPatchSection;
    MarkEntryShaped(r, p, t, id, deleted);
    PatchSectionEffect(SetTable(r, p, t), SectionOf(p));
  }

  lemma MarkEntryShaped(r: RoleState, p: Part, t: Table, id: int, deleted: bool)
    requires Shaped(r)
    ensures Shaped(MarkEntry(SetTable(r, p, t), p, id, deleted))
  {
    hide SectionOf, IsAll, MarkPatchSection;
    var r1 := SetTable(r, p, t);
    TableSetShaped(r, p, t);
    PatchSectionEffect(r1, SectionOf(p));
    KeysShaped(r1, MarkEntry(r1, p, id, deleted));
  }

  lemma PatchSectionEffect(r: RoleState, s: Section)
    ensures var r' := MarkPatchSection(r, s);
            && r' == r.(patch := r'.patch) && (r'.patch == r.patch || r'.patch == r.patch + {s})
            && (s in r'.full || s in r'.patch) && (s in r.full ==> r'.patch == r.patch)
  {
  }

  lemma TableSetShaped(r: RoleState, p: Part, t: Table)
    requires Shaped(r)
    ensures Shaped(SetTable(r, p, t))
  {
  }

  lemma KeysShaped(r: RoleState, r': RoleState)
    requires Shaped(r) && r'.content == r.content && r'.client == r.client && r'.stored == r.stored
    requires r.upserts.Keys <= r'.upserts.Keys && r.deletes.Keys <= r'.deletes.Keys
    ensures Shaped(r')
  {
    hide Whole;
  }

  lemma MarkedTableOk(r: RoleState, p: Part, t: Table, id: int, deleted: bool)
    requires Shaped(r) && SyncInv(r)
    requires forall x :: x != id ==> SameAt(r.content.tables[p], t, x)
    requires deleted <==> id !in t
    ensures Shaped(MarkEntry(SetTable(r, p, t), p, id, deleted))
    ensures TableOk(MarkEntry(SetTable(r, p, t), p, id, deleted), p)
  {
    var r' := MarkEntry(SetTable(r, p, t), p, id, deleted);
    MarkEntryEffect(r, p, t, id, deleted);
    hide MarkEntry, SectionOf, IsAll, Patchable;
    assert TableOk(r, p);
    assert r'.client.tables[p] == r.client.tables[p];
    if SectionOf(p) !in r.full {
      MarksAfterChange(r.content.tables[p], t, r.client.tables[p], r.upserts[p], r.deletes[p], id, deleted);
    }
    hide MarksOk, TableSynced, SameAt, TablesOk, RestOk, MasksOk;
  }

  lemma MarkedMasksOk(r: RoleState, p: Part, t: Table, id: int, deleted: bool)
    requires Shaped(r) && SyncInv(r) && Patchable(SectionOf(p))
    ensures Shaped(MarkEntry(SetTable(r, p, t), p, id, deleted))
    ensures MasksOk(MarkEntry(SetTable(r, p, t), p, id, deleted)) && RestOk(MarkEntry(SetTable(r, p, t), p, id, deleted))
  {
    MarkEntryEffect(r, p, t, id, deleted);
    hide IsAll, SectionOf, MarkEntry, Patchable, TablesOk, SetTable;
  }

  /** A tracked change keeps the invariant whatever the previous marks of the entry were. */
  lemma TableAfterMark(r: RoleState, p: Part, t: Table, id: int, deleted: bool)
    requires Shaped(r) && SyncInv(r) && Patchable(SectionOf(p))
    requires forall x :: x != id ==> SameAt(r.content.tables[p], t, x)
    requires deleted <==> id !in t
    ensures Shaped(MarkEntry(SetTable(r, p, t), p, id, deleted))
    ensures SyncInv(MarkEntry(SetTable(r, p, t), p, id, deleted))
  {
    MarkedTableOk(r, p, t, id, deleted);
    MarkedMasksOk(r, p, t, id, deleted);
    OthersAfterMark(r, p, t, id, deleted);
    hide MarkEntry, SetTable, MasksOk, RestOk, TablesOk, TableOk, Patchable, SectionOf, SameAt;
  }

  lemma OthersAfterMark(r: RoleState, p: Part, t: Table, id: int, deleted: bool)
    requires Shaped(r) && SyncInv(r) && Patchable(SectionOf(p))
    requires Shaped(MarkEntry(SetTable(r, p, t), p, id, deleted))
    requires TableOk(MarkEntry(SetTable(r, p, t), p, id, deleted), p)
    ensures TablesOk(MarkEntry(SetTable(r, p, t), p, id, deleted))
  {
    hide IsAll, SectionOf, MarkEntry, TableOk, Patchable, TablesOk, RestOk, MasksOk;
    MarkEntryEffect(r, p, t, id, deleted);
    OtherTablesStay(r, MarkEntry(SetTable(r, p, t), p, id, deleted), p);
  }

  lemma OtherTablesStay(r: RoleState, r': RoleState, p: Part)
    requires Shaped(r) && Shaped(r') && TablesOk(r) && TableOk(r', p)
    requires forall q: Part :: q != p ==>
               r'.content.tables[q] == r.content.tables[q] && r'.client.tables[q] == r.client.tables[q]
    requires forall q: Part :: q != p ==> r'.upserts[q] == r.upserts[q] && r'.deletes[q] == r.deletes[q]
    requires r.full <= r'.full && r.patch <= r'.full + r'.patch
    ensures TablesOk(r')
  {
    hide TableOk, SectionOf;
    forall q: Part
      ensures TableOk(r', q)
    {
      if q != p {
        TableOkStays(r, r', q);
      }
    }
  }

  lemma MarksAfterChange(t: Table, t': Table, client: Table, up: set<int>, del: set<int>, id: int, deleted: bool)
    requires MarksOk(t, up, del) && TableSynced(t, client, up, del) && (deleted <==> id !in t')
    requires forall x :: x != id ==> SameAt(t, t', x)
    ensures var up' := if deleted then up - {id} else up + {id};
            var del' := if deleted then del + {id} else del - {id};
            MarksOk(t', up', del') && TableSynced(t', client, up', del')
  {
    var up' := if deleted then up - {id} else up + {id};
    var del' := if deleted then del + {id} else del - {id};
    forall x | x != id
      ensures x in t <==> x in t'
    {
      assert SameAt(t, t', x);
    }
    forall x | x !in up' && x !in del'
      ensures SameAt(t', client, x)
    {
      assert SameAt(t, t', x) && SameAt(t, client, x);
    }
  }

  /** Whatever changes in a section that is then marked as a whole, the invariant holds. */
  lemma TouchKeeps(r: RoleState, r': RoleState, s: Section)
    requires Shaped(r) && SyncInv(r) && Shaped(r') && r' == r.(content := r'.content)
    requires forall p: Part :: SectionOf(p) != s ==> r'.content.tables[p] == r.content.tables[p]
    requires s != Icon ==> r'.content.equip == r.content.equip
    requires forall x: Section :: x != s ==> r'.content.rest[x] == r.content.rest[x]
    ensures Shaped(Touch(r', s)) && SyncInv(Touch(r', s))
  {
    var r2 := Touch(r', s);
    TouchEffect(r', s);
    hide MarksOk, TableSynced, SectionOf, Patchable, Touch;
    forall p: Part
      ensures TableOk(r2, p)
    {
      assert TableOk(r, p);
      if SectionOf(p) != s {
        TableOkStays(r, r2, p);
      }
    }
  }

  lemma TouchEffect(r: RoleState, s: Section)
    ensures var r' := Touch(r, s);
            && r' == r.(full := r'.full, patch := r'.patch, persistDirty := r.persistDirty + {s}, needPersist := true)
            && r'.full == r.full + {s} && r'.patch == r.patch - {s}
  {
    TouchIsNotAll(s);
    hide IsAll;
  }

  lemma TouchIsNotAll(s: Section)
    ensures !IsAll({s})
  {
    EverySection();
    assert Register in ALL && Login in ALL;
  }

  // ---- what a flush does --------------------------------------------------------------------------

  lemma MasksCover(r: RoleState, usePatch: bool)
    requires Shaped(r) && SyncInv(r)
    ensures var (full, requested) := SyncMasks(r, usePatch);
            full >= r.full && full + requested == r.full + r.patch && full !! requested && requested <= r.patch
  {
    assert (set s | s in r.patch && Patchable(s)) == r.patch;
  }

  /** The client's table after a message: the server's, when the table's section is in the message. */
  function ReceivedTable(r: RoleState, full: Mask, requested: Mask, p: Part): Table
    requires Shaped(r)
  {
    var base := if SectionOf(p) in full then r.content.tables[p] else r.client.tables[p];
    if SectionOf(p) in requested then ApplyPatch(base, BuildPatch(r.content.tables[p], r.upserts[p], r.deletes[p])) else base
  }

  lemma ReceiveTable(c: Content, m: Payload, p: Part)
    requires c.tables.Keys == m.info.tables.Keys && c.rest.Keys == m.info.rest.Keys && p in c.tables
    ensures Receive(c, m).tables.Keys == c.tables.Keys
    ensures var base := if SectionOf(p) in m.full then m.info.tables[p] else c.tables[p];
            Receive(c, m).tables[p] == if p in m.patches then ApplyPatch(base, m.patches[p]) else base
  {
    hide SectionOf, ApplyPatch;
  }

  /** Leaving out the patches of sections in which all patches are empty makes no difference. */
  lemma ReceivedTableOf(r: RoleState, full: Mask, requested: Mask, p: Part)
    requires Shaped(r)
    ensures Receive(r.client, BuildPayload(r, full, requested)).tables[p] == ReceivedTable(r, full, requested, p)
  {
    EmptyPatchUnsent(r, requested, p);
    ReceiveTable(r.client, BuildPayload(r, full, requested), p);
    hide BuildPatch, SectionOf, IsEmpty, ActualPatchMask, Receive, ApplyPatch;
    var patch := BuildPatch(r.content.tables[p], r.upserts[p], r.deletes[p]);
    if SectionOf(p) !in ActualPatchMask(r, requested) {
      EmptyPatchIdle(r.content.tables[p], patch);
      EmptyPatchIdle(r.client.tables[p], patch);
    }
  }

  lemma EmptyPatchUnsent(r: RoleState, requested: Mask, p: Part)
    requires Shaped(r)
    ensures SectionOf(p) in requested && SectionOf(p) !in ActualPatchMask(r, requested) ==>
              IsEmpty(BuildPatch(r.content.tables[p], r.upserts[p], r.deletes[p]))
    ensures SectionOf(p) in ActualPatchMask(r, requested) ==> SectionOf(p) in requested
  {
    hide BuildPatch, IsEmpty;
    if SectionOf(p) in requested && SectionOf(p) !in ActualPatchMask(r, requested) {
      assert !SectionPatched(r, SectionOf(p));
    }
  }

  lemma EmptyPatchIdle(t: Table, p: Patch)
    ensures IsEmpty(p) ==> ApplyPatch(t, p) == t
  {
  }

  lemma TableAfterReceive(r: RoleState, full: Mask, requested: Mask, p: Part)
    requires Shaped(r) && SyncInv(r)
    requires full >= r.full && full + requested == r.full + r.patch && full !! requested
    ensures ReceivedTable(r, full, requested, p) == r.content.tables[p]
  {
    var server, client, up, del := r.content.tables[p], r.client.tables[p], r.upserts[p], r.deletes[p];
    assert TableOk(r, p);
    hide MarksOk, TableSynced;
    if SectionOf(p) !in full {
      PatchSyncs(server, client, up, del);
      assert SectionOf(p) !in requested ==> up == {} && del == {};
      UnmarkedIsSame(server, client, up, del);
    }
  }

  lemma UnmarkedIsSame(server: Table, client: Table, up: set<int>, del: set<int>)
    requires TableSynced(server, client, up, del)
    ensures up == {} && del == {} ==> server == client
  {
    if up == {} && del == {} {
      assert forall id :: SameAt(server, client, id);
      SameEverywhere(server, client);
    }
  }

  lemma MessageShape(r: RoleState, full: Mask, requested: Mask)
    requires Shaped(r)
    ensures BuildPayload(r, full, requested).info == r.content
    ensures r.client.tables.Keys == r.content.tables.Keys && r.client.rest.Keys == r.content.rest.Keys
    ensures Receive(r.client, BuildPayload(r, full, requested)).tables.Keys == r.content.tables.Keys
  {
    hide SectionOf, ActualPatchMask;
    assert forall p: Part :: p in r.client.tables.Keys <==> p in r.content.tables.Keys;
    assert forall s: Section :: s in r.client.rest.Keys <==> s in r.content.rest.Keys;
  }

  /** A message that gets through leaves the client with exactly the server's role. */
  lemma MessageSyncs(r: RoleState, usePatch: bool)
    requires Shaped(r) && SyncInv(r)
    ensures var (full, requested) := SyncMasks(r, usePatch);
            Receive(r.client, BuildPayload(r, full, requested)) == r.content
  {
    hide SyncMasks, Receive, BuildPayload, ReceivedTable, TablesOk, MasksOk, RestOk, SectionOf;
    MasksCover(r, usePatch);
    var (full, requested) := SyncMasks(r, usePatch);
    MessageShape(r, full, requested);
    var c := Receive(r.client, BuildPayload(r, full, requested));
    forall p: Part
      ensures p in c.tables && c.tables[p] == r.content.tables[p]
    {
      ReceiveTable(r.client, BuildPayload(r, full, requested), p);
      ReceivedTableOf(r, full, requested, p);
      TableAfterReceive(r, full, requested, p);
    }
    ReceivedRest(r, full, requested);
    assert c.tables == r.content.tables;
    assert c.rest == r.content.rest;
  }

  lemma ReceivedRest(r: RoleState, full: Mask, requested: Mask)
    requires Shaped(r) && SyncInv(r)
    requires full >= r.full && full + requested == r.full + r.patch && full !! requested
    ensures var c := Receive(r.client, BuildPayload(r, full, requested));
            c.equip == r.content.equip && c.rest.Keys == r.content.rest.Keys
            && forall s: Section :: c.rest[s] == r.content.rest[s]
  {
    hide TablesOk, BuildPatch, IsEmpty, ApplyPatch;
    if Icon !in full && r.equipDirty {
      assert SectionPatched(r, Icon);
    }
  }

  /** Nothing marked, and the client is up to date. */
  ghost predicate Settled(r: RoleState)
    requires Shaped(r)
  {
    && r.client == r.content && r.full == {} && r.patch == {} && !r.equipDirty
    && (forall p: Part :: r.upserts[p] == {} && r.deletes[p] == {})
  }

  lemma SettledInv(r: RoleState)
    requires Shaped(r) && Settled(r)
    ensures SyncInv(r)
  {
  }

  /** Clearing by the mask of all sections is no special case. */
  lemma ClearSyncedEffect(r: RoleState, full: Mask, patch: Mask)
    requires Shaped(r)
    ensures var r' := ClearSynced(r, full, patch);
            && Shaped(r') && r'.content == r.content && r'.client == r.client
            && r'.stored == r.stored && r'.written == r.written
            && r'.persistDirty == r.persistDirty && r'.needPersist == r.needPersist
            && r'.full == r.full - full && r'.patch == r.patch - patch - full
            && r'.equipDirty == (r.equipDirty && Icon !in full + patch)
            && (forall p: Part :: r'.upserts[p] == if SectionOf(p) in full + patch then {} else r.upserts[p])
            && (forall p: Part :: r'.deletes[p] == if SectionOf(p) in full + patch then {} else r.deletes[p])
  {
    hide SectionOf, IsAll;
    if IsAll(full) {
      AllCleared(r, full, patch);
    }
  }

  lemma AllCleared(r: RoleState, full: Mask, patch: Mask)
    requires IsAll(full)
    ensures r.full - full == {} && r.patch - patch - full == {} && Icon in full
    ensures forall p: Part :: SectionOf(p) in full
  {
  }

  lemma NothingLeft(full: Mask, patch: Mask, sentFull: Mask, sentPatch: Mask)
    requires sentFull >= full && sentFull + sentPatch == full + patch
    ensures full - sentFull == {} && patch - sentPatch - sentFull == {}
  {
    assert forall s :: s in patch ==> s in sentFull + sentPatch;
  }

  lemma UnsentUnmarked(r: RoleState, sent: Mask, p: Part)
    requires Shaped(r) && SyncInv(r) && sent == r.full + r.patch && SectionOf(p) !in sent
    ensures r.upserts[p] == {} && r.deletes[p] == {}
  {
    assert TableOk(r, p);
    hide SectionOf, MarksOk, TableSynced, MasksOk, RestOk, TablesOk;
  }

  lemma ClearedIsSettled(r: RoleState, r': RoleState, full: Mask, requested: Mask)
    requires Shaped(r) && SyncInv(r) && Shaped(r') && r' == r.(client := r.content)
    requires full >= r.full && full + requested == r.full + r.patch
    ensures Shaped(ClearSynced(r', full, requested)) && Settled(ClearSynced(r', full, requested))
  {
    hide ClearSynced, TablesOk, RestOk, SectionOf;
    ClearSyncedEffect(r', full, requested);
    var c := ClearSynced(r', full, requested);
    forall p: Part
      ensures c.upserts[p] == {} && c.deletes[p] == {}
    {
      if SectionOf(p) !in full + requested {
        UnsentUnmarked(r, full + requested, p);
      }
    }
    NothingLeft(r.full, r.patch, full, requested);
  }

  /** A flush with nothing but empty patches, or with nothing at all: the client was up to date. */
  lemma IdleMeansSynced(r: RoleState, usePatch: bool)
    requires Shaped(r) && SyncInv(r)
    requires var (full, requested) := SyncMasks(r, usePatch);
             full == {} && ActualPatchMask(r, requested) == {}
    ensures r.client == r.content
  {
    var (full, requested) := SyncMasks(r, usePatch);
    var m := BuildPayload(r, full, requested);
    MessageSyncs(r, usePatch);
    forall p: Part
      ensures Receive(r.client, m).tables[p] == r.client.tables[p]
    {
      ReceiveTable(r.client, m, p);
    }
    EmptyMessage(r.client, m);
    assert r.client.tables == r.content.tables;
    assert r.client.rest == r.content.rest;
  }

  lemma EmptyMessage(c: Content, m: Payload)
    requires c.tables.Keys == m.info.tables.Keys && c.rest.Keys == m.info.rest.Keys
    requires m.full == {} && m.equip.None?
    ensures Receive(c, m).equip == c.equip && Receive(c, m).rest == c.rest
  {
  }

  /** The main result of a flush: a send that fails or a role that is offline changes nothing and
      keeps every mark; every other outcome leaves the client with exactly the server's role. */
  lemma FlushSyncs(r: RoleState, usePatch: bool, online: bool, sendOk: bool)
    requires Shaped(r) && SyncInv(r)
    ensures var (r', result) := Flush(r, usePatch, online, sendOk);
            && Shaped(r') && SyncInv(r') && r'.content == r.content
            && (result.Offline? || result.SendFailed? ==> r' == r)
            && (result.Sent? || result.NothingDirty? || result.NothingToDo? ==> Settled(r'))
  {
    var (full, requested) := SyncMasks(r, usePatch);
    var (r', result) := Flush(r, usePatch, online, sendOk);
    hide SyncMasks, ClearSynced, Receive, ActualPatchMask, TablesOk, MasksOk, RestOk, Settled;
    if result.Sent? {
      MessageSyncs(r, usePatch);
      MasksCover(r, usePatch);
      ClearedIsSettled(r, r.(client := r.content), full, requested);
      ClearSyncedEffect(r.(client := r.content), full, requested);
      SettledInv(r');
    } else if result.NothingDirty? {
      IdleMeansSynced(r, usePatch);
      MasksCover(r, usePatch);
      ClearedIsSettled(r, r, full, requested);
      ClearSyncedEffect(r, full, requested);
      SettledInv(r');
    } else if result.NothingToDo? {
      NothingMarked(r, usePatch);
    }
  }

  /** There is something to send: a section pending as a whole, or a patch that is not empty. */
  predicate MessageDue(r: RoleState, usePatch: bool)
    requires Marked(r)
  {
    var (full, requested) := SyncMasks(r, usePatch);
    full != {} || exists s: Section :: s in requested && SectionPatched(r, s)
  }

  /** A flush by its inputs. A message is sent exactly when one is due, the role is online and the send
      succeeds; then, and whenever nothing has to be sent, an online flush leaves nothing marked and the
      client up to date. Without a successful send the client is as it was, and a message that was due
      leaves every mark and mask in place. */
  lemma FlushByInputs(r: RoleState, usePatch: bool, online: bool, sendOk: bool)
    requires Shaped(r) && SyncInv(r)
    ensures var (r', result) := Flush(r, usePatch, online, sendOk);
            && (result.Sent? <==> MessageDue(r, usePatch) && online && sendOk)
            && (!(online && sendOk) ==> r'.client == r.client && (MessageDue(r, usePatch) ==> r' == r))
            && (!online ==> r' == r)
            && (online && (sendOk || !MessageDue(r, usePatch)) ==> Shaped(r') && Settled(r'))
            && (result.SendFailed? <==> MessageDue(r, usePatch) && online && !sendOk)
            && (result.Offline? ==> !online)
  {
    hide SyncInv, SyncMasks, ActualPatchMask, SectionPatched, BuildPayload, Receive, ClearSynced, Settled;
    FlushSyncs(r, usePatch, online, sendOk);
    var (full, requested) := SyncMasks(r, usePatch);
    NothingPatched(r, requested);
    ClearSyncedEffect(r, {}, requested);
  }

  lemma NothingPatched(r: RoleState, requested: Mask)
    requires Marked(r)
    ensures ActualPatchMask(r, requested) != {} <==> exists s: Section :: s in requested && SectionPatched(r, s)
  {
    hide SectionPatched;
    var actual := ActualPatchMask(r, requested);
    SomeSection(actual);
    if s: Section :| s in requested && SectionPatched(r, s) {
      assert s in actual;
    }
  }

  lemma SomeSection(m: Mask)
    ensures m == {} || exists s: Section :: s in m
  {
    assert (forall s: Section :: s !in m) ==> m == {};
  }

  lemma NothingMarked(r: RoleState, usePatch: bool)
    requires Shaped(r) && SyncInv(r) && SyncMasks(r, usePatch) == ({}, {})
    ensures Settled(r)
  {
    IdleMeansSynced(r, usePatch);
    MasksCover(r, usePatch);
    ClearedIsSettled(r, r, {}, {});
    ClearSyncedEffect(r, {}, {});
    hide SyncMasks, ClearSynced, MasksOk, RestOk, SectionOf;
  }
}
