/** Runs of a role: any mix of changes, marks, logins, flushes and saves, with sends and writes that
    may fail. */
module RoleRuns {
  import opened Options
  import opened RoleSync

  // ---- persistence -----------------------------------------------------------------------------------

  /** The order of roleSectionAccessors. */
  const ACCESSORS: seq<Section> :=
    [Register, Login, Game, Basic, Inventory, Icon, Mall, MainTask, Guild, Guide, OpenFunc, ActivityTask]

  lemma EveryAccessor(s: Section)
    ensures s in ACCESSORS
  {
    match s
    case Register => assert ACCESSORS[0] == s;
    case Login => assert ACCESSORS[1] == s;
    case Game => assert ACCESSORS[2] == s;
    case Basic => assert ACCESSORS[3] == s;
    case Inventory => assert ACCESSORS[4] == s;
    case Icon => assert ACCESSORS[5] == s;
    case Mall => assert ACCESSORS[6] == s;
    case MainTask => assert ACCESSORS[7] == s;
    case Guild => assert ACCESSORS[8] == s;
    case Guide => assert ACCESSORS[9] == s;
    case OpenFunc => assert ACCESSORS[10] == s;
    case ActivityTask => assert ACCESSORS[11] == s;
  }

  /** An incremental save with no section marked writes them all. */
  function SaveMask(r: RoleState, force: bool): Mask {
    if force || r.persistDirty == {} then ALL else r.persistDirty
  }

  function WriteSection(r: RoleState, s: Section): RoleState
    requires Shaped(r)
  {
    r.(stored := CopySections(r.stored, r.content, {s}), written := r.written + {s})
  }

  /** The write loop of saveRoleHash: it stops at the first marked section whose write fails. */
  function WriteFrom(r: RoleState, mask: Mask, fails: Mask, order: seq<Section>): (RoleState, bool)
    requires Shaped(r)
    decreases |order|
  {
    if order == [] then (r, true)
    else if order[0] !in mask then WriteFrom(r, mask, fails, order[1..])
    else if order[0] in fails then (r, false)
    else WriteFrom(WriteSection(r, order[0]), mask, fails, order[1..])
  }

  /** One turn of the loop. */
  lemma WriteStep(r: RoleState, mask: Mask, fails: Mask, i: nat)
    requires Shaped(r) && i < |ACCESSORS|
    ensures var s := ACCESSORS[i];
            && (s !in mask ==> WriteFrom(r, mask, fails, ACCESSORS[i..]) == WriteFrom(r, mask, fails, ACCESSORS[i + 1..]))
            && (s in mask && s in fails ==> WriteFrom(r, mask, fails, ACCESSORS[i..]) == (r, false))
            && (s in mask && s !in fails ==>
                  Shaped(WriteSection(r, s))
                  && WriteFrom(r, mask, fails, ACCESSORS[i..]) == WriteFrom(WriteSection(r, s), mask, fails, ACCESSORS[i + 1..]))
  {
    assert ACCESSORS[i..][0] == ACCESSORS[i] && ACCESSORS[i..][1..] == ACCESSORS[i + 1..];
  }

  lemma WriteNothing(r: RoleState, mask: Mask, fails: Mask)
    requires Shaped(r)
    ensures WriteFrom(r, mask, fails, ACCESSORS[|ACCESSORS|..]) == (r, true)
  {
  }

  lemma WholeOrder()
    ensures ACCESSORS[0..] == ACCESSORS
  {
  }

  /** SaveToDB (`force` false) and SaveToDBSync (`force` true); a failure leaves the marks. */
  function Save(r: RoleState, force: bool, fails: Mask): (RoleState, bool)
    requires Shaped(r)
  {
    var (r', ok) := WriteFrom(r, SaveMask(r, force), fails, ACCESSORS);
    if ok then (r'.(persistDirty := {}, needPersist := r'.needPersist && !force), true) else (r', false)
  }

  /** MaybeFlushPersist; `due`: the debounce interval has passed. */
  function FlushPersist(r: RoleState, force: bool, due: bool, fails: Mask): (RoleState, bool)
    requires Shaped(r)
  {
    if !r.needPersist || !(force || due) then (r, true)
    else
      var (r', ok) := Save(r, false, fails);
      (if ok then r'.(needPersist := false) else r', ok)
  }

  ghost predicate StoredNow(r: RoleState, s: Section)
    requires Shaped(r)
  {
    s in r.written && SameSection(r.stored, r.content, s)
  }

  ghost predicate AllStored(r: RoleState)
    requires Shaped(r)
  {
    forall s: Section :: StoredNow(r, s)
  }

  /** Every section outside persistDirtyMask is stored as it is, and a mark asks for a flush. */
  ghost predicate PersistInv(r: RoleState)
    requires Shaped(r)
  {
    && (forall s: Section :: s !in r.persistDirty ==> StoredNow(r, s))
    && (r.persistDirty != {} ==> r.needPersist)
  }

  ghost predicate OnlyStoreChanged(r: RoleState, r': RoleState) {
    r' == r.(stored := r'.stored, written := r'.written)
  }

  lemma WriteSectionEffect(r: RoleState, s: Section)
    requires Shaped(r)
    ensures var r' := WriteSection(r, s);
            && Shaped(r') && OnlyStoreChanged(r, r') && StoredNow(r', s)
            && (forall t: Section :: t != s ==> (StoredNow(r', t) <==> StoredNow(r, t)))
  {
    hide SectionOf;
    var r' := WriteSection(r, s);
    forall p: Part
      ensures r'.stored.tables[p] == if SectionOf(p) == s then r.content.tables[p] else r.stored.tables[p]
    {
    }
    forall t: Section
      ensures r'.stored.rest[t] == if t == s then r.content.rest[t] else r.stored.rest[t]
    {
    }
  }

  /** However far the loop gets, it spoils nothing; if it gets to the end, everything in the mask
      is stored and everything else is as before. */
  lemma {:induction false} WriteFromEffect(r: RoleState, mask: Mask, fails: Mask, order: seq<Section>)
    requires Shaped(r)
    ensures var (r', ok) := WriteFrom(r, mask, fails, order);
            && Shaped(r') && OnlyStoreChanged(r, r')
            && (forall s: Section :: StoredNow(r, s) ==> StoredNow(r', s))
            && (forall s: Section :: s !in mask ==> (StoredNow(r', s) <==> StoredNow(r, s)))
            && (ok ==> forall s: Section :: s in order && s in mask ==> StoredNow(r', s))
            && (ok <==> forall s: Section :: s in order && s in mask ==> s !in fails)
    decreases |order|
  {
    if order != [] {
      hide StoredNow;
      if order[0] !in mask {
        WriteFromEffect(r, mask, fails, order[1..]);
      } else if order[0] !in fails {
        WriteSectionEffect(r, order[0]);
        hide WriteSection;
        WriteFromEffect(WriteSection(r, order[0]), mask, fails, order[1..]);
      }
    }
  }

  /** A save that fails has written exactly the sections of its mask that come before the first one
      whose write fails. */
  lemma {:induction false} WritesUpToFailure(r: RoleState, mask: Mask, fails: Mask, order: seq<Section>, k: nat)
    requires Shaped(r) && k < |order| && order[k] in mask && order[k] in fails
    requires forall j :: 0 <= j < k ==> !(order[j] in mask && order[j] in fails)
    ensures var (r', ok) := WriteFrom(r, mask, fails, order);
            && !ok && Shaped(r') && OnlyStoreChanged(r, r')
            && forall s: Section :: StoredNow(r', s) <==> StoredNow(r, s) || (s in order[..k] && s in mask)
    decreases |order|
  {
    hide StoredNow;
    if k > 0 {
      assert order[1..][..k - 1] == order[1..k] && order[..k] == [order[0]] + order[1..k];
      if order[0] in mask {
        WriteSectionEffect(r, order[0]);
        hide WriteSection;
        WritesUpToFailure(WriteSection(r, order[0]), mask, fails, order[1..], k - 1);
      } else {
        WritesUpToFailure(r, mask, fails, order[1..], k - 1);
      }
    }
  }

  /** A save succeeds exactly when no section it has to write fails. If it does, the store is up to
      date exactly when it already was for the sections outside the mask the save used; a failure
      loses no mark and no stored section. */
  lemma SaveEffect(r: RoleState, force: bool, fails: Mask)
    requires Shaped(r)
    ensures var (r', ok) := Save(r, force, fails);
            && Shaped(r') && r'.content == r.content && r'.client == r.client
            && r' == r.(stored := r'.stored, written := r'.written,
                        persistDirty := r'.persistDirty, needPersist := r'.needPersist)
            && (forall s: Section :: StoredNow(r, s) ==> StoredNow(r', s))
            && (ok <==> SaveMask(r, force) !! fails)
            && (ok ==> r'.persistDirty == {} && r'.needPersist == (r.needPersist && !force))
            && (ok ==> (AllStored(r') <==> forall s: Section :: s !in SaveMask(r, force) ==> StoredNow(r, s)))
            && (!ok ==> r'.persistDirty == r.persistDirty && r'.needPersist == r.needPersist)
  {
    WriteFromEffect(r, SaveMask(r, force), fails, ACCESSORS);
    var (w, done) := WriteFrom(r, SaveMask(r, force), fails, ACCESSORS);
    forall s: Section
      ensures s in ACCESSORS
    {
      EveryAccessor(s);
    }
    var (r', ok) := Save(r, force, fails);
    assert r'.stored == w.stored && r'.written == w.written && r'.content == w.content;
    forall s: Section
      ensures StoredNow(r', s) <==> StoredNow(w, s)
    {
    }
    hide WriteFrom, SaveMask, SameSection, StoredNow;
  }

  /** Every save keeps the persistence invariant, and a successful one stores every section. */
  lemma SaveKeeps(r: RoleState, force: bool, fails: Mask)
    requires Shaped(r) && PersistInv(r)
    ensures var (r', ok) := Save(r, force, fails);
            Shaped(r') && PersistInv(r') && (ok ==> AllStored(r'))
  {
    SaveEffect(r, force, fails);
    EverySection();
    hide Save, StoredNow;
    assert forall s: Section :: s !in SaveMask(r, force) ==> StoredNow(r, s);
  }

  lemma OutsideMask(r: RoleState, s: Section)
    ensures s !in SaveMask(r, false) <==> r.persistDirty != {} && s !in r.persistDirty
  {
    EverySection();
  }

  lemma MaskCovers(r: RoleState)
    ensures (forall s: Section :: s in SaveMask(r, false)) <==> r.persistDirty == {} || IsAll(r.persistDirty)
  {
    EverySection();
    var m := SaveMask(r, false);
    if forall s: Section :: s in m {
      assert m == ALL;
    }
  }

  /** The first save of a new role stores all of it exactly when no section, or every section, had
      been marked before; otherwise the unmarked sections are left out and no mark recalls them. */
  lemma FirstSave(r: RoleState, fails: Mask)
    requires Shaped(r) && r.written == {}
    ensures var (r', ok) := Save(r, false, fails);
            Shaped(r') && (ok ==> (AllStored(r') <==> r.persistDirty == {} || IsAll(r.persistDirty)))
  {
    hide Save, SaveMask, SameSection, IsAll;
    SaveEffect(r, false, fails);
    MaskCovers(r);
    forall s: Section
      ensures !StoredNow(r, s)
    {
    }
  }

  lemma NoLongerAsked(r: RoleState, saved: RoleState)
    requires Shaped(r) && Shaped(saved) && PersistInv(r)
    ensures !r.needPersist ==> AllStored(r)
    ensures r.persistDirty != {} ==> r.needPersist
    ensures AllStored(saved) && saved.persistDirty == {} ==>
              PersistInv(saved.(needPersist := false)) && AllStored(saved.(needPersist := false))
  {
    hide SameSection;
    var after := saved.(needPersist := false);
    assert forall s: Section :: StoredNow(saved, s) <==> StoredNow(after, s);
    assert !r.needPersist ==> r.persistDirty == {};
  }

  /** A forced flush that reports success leaves everything stored, whether or not it had to write. */
  lemma FlushPersistStores(r: RoleState, force: bool, due: bool, fails: Mask)
    requires Shaped(r) && PersistInv(r)
    ensures var (r', ok) := FlushPersist(r, force, due, fails);
            && Shaped(r') && PersistInv(r') && r'.content == r.content
            && (ok && (force || due) ==> AllStored(r'))
            && (!ok ==> r'.persistDirty == r.persistDirty && r'.needPersist)
            && (ok <==> !(r.needPersist && (force || due)) || SaveMask(r, false) !! fails)
            && (!r.needPersist || !(force || due) ==> r' == r)
            && (ok && r.needPersist && (force || due) ==> r'.persistDirty == {} && !r'.needPersist)
  {
    hide Save, SaveMask, AllStored, PersistInv, SectionOf;
    SaveKeeps(r, false, fails);
    SaveEffect(r, false, fails);
    var (saved, ok) := Save(r, false, fails);
    NoLongerAsked(r, saved);
  }

  /** Replacing the whole role content marks no section for the store. A save that follows and
      succeeds stores the new role exactly when no section was marked at the time, or the content of
      every unmarked section is the old one. */
  function ReplaceContent(r: RoleState, c: Content): RoleState {
    MarkFullSync(r.(content := c), ALL).(needPersist := true)
  }

  lemma ReplaceEffect(r: RoleState, c: Content)
    requires Shaped(r) && Whole(c)
    ensures var r' := ReplaceContent(r, c);
            && Shaped(r') && r'.content == c && r'.stored == r.stored && r'.written == r.written
            && r'.persistDirty == r.persistDirty
    ensures SyncInv(r) ==> SyncInv(ReplaceContent(r, c))
  {
    EverySection();
    if SyncInv(r) {
      forall p: Part
        ensures TableOk(ReplaceContent(r, c), p)
      {
        assert TableOk(r, p);
      }
    }
  }

  lemma ReplaceThenSave(r: RoleState, c: Content, fails: Mask)
    requires Shaped(r) && PersistInv(r) && Whole(c)
    ensures Shaped(ReplaceContent(r, c))
    ensures var (r', ok) := Save(ReplaceContent(r, c), false, fails);
            Shaped(r') && (ok ==>
              (AllStored(r') <==>
                 r.persistDirty == {} || forall s: Section :: s !in r.persistDirty ==> SameSection(r.content, c, s)))
  {
    hide Save, SaveMask, SameSection, IsAll, ReplaceContent, SyncInv;
    ReplaceEffect(r, c);
    var r1 := ReplaceContent(r, c);
    SaveEffect(r1, false, fails);
    forall s: Section
      ensures s !in SaveMask(r1, false) <==> r.persistDirty != {} && s !in r.persistDirty
      ensures s !in r.persistDirty ==> (StoredNow(r1, s) <==> SameSection(r.content, c, s))
    {
      OutsideMask(r1, s);
      if s !in r.persistDirty {
        SameSectionMoves(r.stored, r.content, c, s);
        assert StoredNow(r, s);
      }
    }
    hide StoredNow;
  }

  lemma SameSectionMoves(a: Content, b: Content, c: Content, s: Section)
    requires Whole(a) && Whole(b) && Whole(c)
    ensures SameSection(a, b, s) ==> (SameSection(a, c, s) <==> SameSection(b, c, s))
  {
    hide SectionOf;
  }

  // ---- what a section becomes in the store and on loading ------------------------------------------

  /** What an accessor returns: an interface value, which is nil only when it holds no type at all. */
  datatype Message<V> = Nil | Pointer(section: Option<V>)

  /** Every accessor returns a field of pointer type, so even an absent section is not nil. */
  function Get<V>(section: Option<V>): Message<V> {
    Pointer(section)
  }

  function Encoded<V>(m: Message<V>, s: Section, marshal: (Section, V) -> seq<int>): seq<int>
    requires m.Pointer?
  {
    if m.section.Some? then marshal(s, m.section.value) else []
  }

  type Info<V> = map<Section, Option<V>>
  type Fields = map<Section, seq<int>>

  /** saveRoleHash: one field for each section of the mask, unless the accessor returns nil. */
  function SavedFields<V>(fields: Fields, info: Info<V>, mask: Mask, marshal: (Section, V) -> seq<int>): Fields {
    fields + map s | s in info && s in mask && Get(info[s]).Pointer? :: Encoded(Get(info[s]), s, marshal)
  }

  /** loadRoleHash skips a missing or empty field, */
  function LoadedSection<V>(fields: Fields, s: Section, unmarshal: (Section, seq<int>) -> V): Option<V> {
    if s !in fields || fields[s] == [] then None else Some(unmarshal(s, fields[s]))
  }

  /** and finds no role where there is no field. */
  function LoadedInfo<V>(fields: Fields, unmarshal: (Section, seq<int>) -> V): Option<Info<V>> {
    if fields == map[] then None else Some(map s | s in ALL :: LoadedSection(fields, s, unmarshal))
  }

  ghost predicate EmptyEncoding<V>(info: Info<V>, s: Section, marshal: (Section, V) -> seq<int>)
    requires s in info
  {
    info[s].Some? && marshal(s, info[s].value) == []
  }

  /** A section that is saved comes back as it was, present or absent, exactly when it is not present
      with an empty encoding; the others come back as before the save. */
  lemma SectionAfterSave<V(!new)>(fields: Fields, info: Info<V>, mask: Mask, s: Section,
                                  marshal: (Section, V) -> seq<int>, unmarshal: (Section, seq<int>) -> V)
    requires forall s, v :: unmarshal(s, marshal(s, v)) == v
    requires s in info
    ensures var loaded := LoadedSection(SavedFields(fields, info, mask, marshal), s, unmarshal);
            if s in mask then loaded == info[s] <==> !EmptyEncoding(info, s, marshal)
            else loaded == LoadedSection(fields, s, unmarshal)
  {
    if info[s].Some? {
      assert unmarshal(s, marshal(s, info[s].value)) == info[s].value;
    }
  }

  /** After a save of all sections, over whatever was stored, the role loads as it was exactly when no
      section is present with an empty encoding. */
  lemma LoadAfterSave<V(!new)>(fields: Fields, info: Info<V>,
                               marshal: (Section, V) -> seq<int>, unmarshal: (Section, seq<int>) -> V)
    requires forall s, v :: unmarshal(s, marshal(s, v)) == v
    requires info.Keys == ALL
    ensures LoadedInfo(SavedFields(fields, info, ALL, marshal), unmarshal) == Some(info)
            <==> forall s: Section :: s in info && !EmptyEncoding(info, s, marshal)
  {
    hide SavedFields, LoadedSection, EmptyEncoding;
    var after := SavedFields(fields, info, ALL, marshal);
    SomethingSaved(fields, info, marshal);
    var loaded := LoadedInfo(after, unmarshal).value;
    forall s: Section
      ensures s in info && s in loaded && (loaded[s] == info[s] <==> !EmptyEncoding(info, s, marshal))
    {
      EverySection();
      SectionAfterSave(fields, info, ALL, s, marshal, unmarshal);
    }
    if forall s: Section :: !EmptyEncoding(info, s, marshal) {
      assert loaded == info;
    }
  }

  lemma SomethingSaved<V>(fields: Fields, info: Info<V>, marshal: (Section, V) -> seq<int>)
    requires info.Keys == ALL
    ensures SavedFields(fields, info, ALL, marshal) != map[]
  {
    assert Register in info && Register in SavedFields(fields, info, ALL, marshal);
  }

  // ---- runs -------------------------------------------------------------------------------------------

  datatype Op =
    | MarkFull(flag: Mask)
    | Upsert(p: Part, id: int, v: int)
    | Remove(p: Part, id: int)
    | Currency(id: int, v: int)
    | Equip(v: int)
    | Rest(s: Section, v: int)
    | TouchActivity
    | Relogin
    | FlushSync(usePatch: bool, online: bool, sendOk: bool)
    | SaveNow(force: bool, fails: Mask)
    | PersistNow(force: bool, due: bool, fails: Mask)
    | Replace(c: Content)

  /** Every table but the currencies is changed entry by entry. */
  ghost predicate Legal(op: Op) {
    && ((op.Upsert? || op.Remove?) ==> op.p != Currencies)
    && (op.Replace? ==> Whole(op.c))
  }

  /** A login reply carries the whole role; the pending marks stay. */
  function Relogged(r: RoleState): RoleState {
    r.(client := r.content)
  }

  function Apply(r: RoleState, op: Op): RoleState
    requires Shaped(r)
  {
    match op
    case MarkFull(flag) => MarkFullSync(r, flag)
    case Upsert(p, id, v) => SetEntry(r, p, id, v)
    case Remove(p, id) => DeleteEntry(r, p, id)
    case Currency(id, v) => SetCurrency(r, id, v)
    case Equip(v) => SetEquip(r, v)
    case Rest(s, v) => SetRest(r, s, v)
    case TouchActivity => TouchActvityTaskInfo(r)
    case Relogin => Relogged(r)
    case FlushSync(usePatch, online, sendOk) => Flush(r, usePatch, online, sendOk).0
    case SaveNow(force, fails) => Save(r, force, fails).0
    case PersistNow(force, due, fails) => FlushPersist(r, force, due, fails).0
    case Replace(c) => ReplaceContent(r, c)
  }

  /** What every tracked change does to the persistence marks. */
  ghost predicate ChangedIn(r: RoleState, r': RoleState, s: Section)
    requires Shaped(r) && Shaped(r')
  {
    && r'.stored == r.stored && r'.written == r.written
    && r'.persistDirty == r.persistDirty + {s} && r'.needPersist
    && (forall t: Section :: t != s ==> SameSection(r.content, r'.content, t))
  }

  lemma ChangeKeepsPersist(r: RoleState, r': RoleState, s: Section)
    requires Shaped(r) && Shaped(r') && PersistInv(r) && ChangedIn(r, r', s)
    ensures PersistInv(r')
  {
    hide SectionOf;
    forall t: Section | t !in r'.persistDirty
      ensures StoredNow(r', t)
    {
      assert StoredNow(r, t) && SameSection(r.content, r'.content, t);
    }
  }

  lemma EntryChange(r: RoleState, p: Part, t: Table, id: int, deleted: bool)
    requires Shaped(r)
    ensures var r' := MarkEntry(SetTable(r, p, t), p, id, deleted);
            Shaped(r') && ChangedIn(r, r', SectionOf(p))
  {
    MarkEntryEffect(r, p, t, id, deleted);
    var r' := MarkEntry(SetTable(r, p, t), p, id, deleted);
    assert r'.stored == r.stored && r'.written == r.written
           && r'.persistDirty == r.persistDirty + {SectionOf(p)} && r'.needPersist;
    hide MarkEntry, SectionOf, SetTable;
  }

  lemma TouchedChange(r: RoleState, r': RoleState, s: Section)
    requires Shaped(r) && Shaped(r') && r' == r.(content := r'.content)
    requires forall t: Section :: t != s ==> SameSection(r.content, r'.content, t)
    ensures Shaped(Touch(r', s)) && ChangedIn(r, Touch(r', s), s)
  {
    TouchEffect(r', s);
    hide Touch, SameSection;
  }

  lemma CurrencyShape(r: RoleState, t: Table)
    requires Shaped(r)
    ensures var r' := SetTable(r, Currencies, t);
            && Shaped(r') && r' == r.(content := r'.content)
            && (forall p: Part :: SectionOf(p) != Basic ==> r'.content.tables[p] == r.content.tables[p])
            && r'.content.equip == r.content.equip && r'.content.rest == r.content.rest
            && (forall s: Section :: s != Basic ==> SameSection(r.content, r'.content, s))
  {
  }

  lemma RestShape(r: RoleState, s: Section, v: int)
    requires Shaped(r)
    ensures var r' := r.(content := r.content.(rest := r.content.rest[s := v]));
            && Shaped(r') && (forall t: Section :: t != s ==> SameSection(r.content, r'.content, t))
  {
    hide SectionOf;
  }

  lemma EquipKeeps(r: RoleState, v: int)
    requires Shaped(r)
    ensures Shaped(SetEquip(r, v)) && ChangedIn(r, SetEquip(r, v), Icon)
    ensures SyncInv(r) ==> SyncInv(SetEquip(r, v))
  {
    var r' := SetEquip(r, v);
    EquipEffect(r, v);
    assert ChangedIn(r, r', Icon);
    if SyncInv(r) {
      hide SetEquip, SectionOf, TablesOk, SameSection;
      TablesAfterMasks(r, r');
    }
  }

  lemma EquipEffect(r: RoleState, v: int)
    requires Shaped(r)
    ensures var r' := SetEquip(r, v);
            && Shaped(r') && r'.full == r.full && r'.equipDirty && Icon in r'.full + r'.patch
            && (r'.patch == r.patch || r'.patch == r.patch + {Icon}) && (Icon in r.full ==> r'.patch == r.patch)
            && r'.content == r.content.(equip := v) && r'.client == r.client
            && r'.upserts == r.upserts && r'.deletes == r.deletes
            && r'.stored == r.stored && r'.written == r.written
            && r'.persistDirty == r.persistDirty + {Icon} && r'.needPersist
  {
  }

  lemma ActivityTouchKeeps(r: RoleState)
    requires Shaped(r)
    ensures var r' := TouchActvityTaskInfo(r);
            Shaped(r') && ChangedIn(r, r', ActivityTask) && (SyncInv(r) ==> SyncInv(r'))
  {
    var r' := TouchActvityTaskInfo(r);
    assert r' == r.(patch := r'.patch, persistDirty := r.persistDirty + {ActivityTask}, needPersist := true);
    if SyncInv(r) {
      hide SectionOf, TablesOk, SameSection, IsAll;
      TablesAfterMasks(r, r');
    }
  }

  lemma ReloginKeeps(r: RoleState)
    requires Shaped(r)
    ensures Shaped(Relogged(r)) && (SyncInv(r) ==> SyncInv(Relogged(r)))
  {
    if SyncInv(r) {
      hide SectionOf, MarksOk;
      forall p: Part
        ensures TableOk(Relogged(r), p)
      {
        assert TableOk(r, p);
      }
    }
  }

  lemma UpsertKeeps(r: RoleState, p: Part, id: int, v: int)
    requires Shaped(r) && p != Currencies
    ensures Shaped(SetEntry(r, p, id, v)) && (SyncInv(r) ==> SyncInv(SetEntry(r, p, id, v)))
    ensures ChangedIn(r, SetEntry(r, p, id, v), SectionOf(p))
  {
    var t := r.content.tables[p][id := v];
    EntryChange(r, p, t, id, false);
    if SyncInv(r) {
      TableAfterMark(r, p, t, id, false);
    }
    hide MarkEntry, SetTable, SyncInv, SectionOf, ChangedIn;
  }

  lemma RemoveKeeps(r: RoleState, p: Part, id: int)
    requires Shaped(r) && p != Currencies
    ensures Shaped(DeleteEntry(r, p, id)) && (SyncInv(r) ==> SyncInv(DeleteEntry(r, p, id)))
    ensures ChangedIn(r, DeleteEntry(r, p, id), SectionOf(p))
  {
    var t := r.content.tables[p] - {id};
    EntryChange(r, p, t, id, true);
    if SyncInv(r) {
      TableAfterMark(r, p, t, id, true);
    }
    hide MarkEntry, SetTable, SyncInv, SectionOf, ChangedIn;
  }

  lemma CurrencyKeeps(r: RoleState, id: int, v: int)
    requires Shaped(r)
    ensures Shaped(SetCurrency(r, id, v)) && (SyncInv(r) ==> SyncInv(SetCurrency(r, id, v)))
    ensures ChangedIn(r, SetCurrency(r, id, v), Basic)
  {
    var t := r.content.tables[Currencies][id := v];
    CurrencyShape(r, t);
    hide SetTable, SectionOf, SyncInv, SameSection, Touch;
    TouchedChange(r, SetTable(r, Currencies, t), Basic);
    if SyncInv(r) {
      TouchKeeps(r, SetTable(r, Currencies, t), Basic);
    }
  }

  lemma RestKeeps(r: RoleState, s: Section, v: int)
    requires Shaped(r)
    ensures Shaped(SetRest(r, s, v)) && (SyncInv(r) ==> SyncInv(SetRest(r, s, v)))
    ensures ChangedIn(r, SetRest(r, s, v), s)
  {
    var r1 := r.(content := r.content.(rest := r.content.rest[s := v]));
    RestShape(r, s, v);
    hide SectionOf, SyncInv, SameSection, Touch;
    TouchedChange(r, r1, s);
    if SyncInv(r) {
      TouchKeeps(r, r1, s);
    }
  }

  lemma FlushFrame(r: RoleState, usePatch: bool, online: bool, sendOk: bool)
    requires Shaped(r)
    ensures var r' := Flush(r, usePatch, online, sendOk).0;
            && Shaped(r') && r'.content == r.content && r'.stored == r.stored && r'.written == r.written
            && r'.persistDirty == r.persistDirty && r'.needPersist == r.needPersist
  {
    hide SyncMasks, ActualPatchMask, ClearSynced, BuildPayload, Receive, SectionOf;
    var (full, requested) := SyncMasks(r, usePatch);
    ReceivedField(r, full, requested, Basic);
    if full == {} && ActualPatchMask(r, requested) == {} {
      ClearSyncedEffect(r, {}, requested);
    } else {
      ClearSyncedEffect(r.(client := Receive(r.client, BuildPayload(r, full, requested))), full, requested);
    }
  }

  /** Shape and sync invariant survive every operation. */
  lemma StepSyncs(r: RoleState, op: Op)
    requires Shaped(r) && Legal(op)
    ensures Shaped(Apply(r, op)) && (SyncInv(r) ==> SyncInv(Apply(r, op)))
  {
    hide SyncInv, Flush, SetEntry, DeleteEntry, SetCurrency, SetEquip, SetRest, TouchActvityTaskInfo, ReplaceContent;
    hide ChangedIn, Save, FlushPersist, Relogged, AllStored, StoredNow;
    match op
    case MarkFull(flag) => MarkFullKeeps(r, flag);
    case Upsert(p, id, v) => UpsertKeeps(r, p, id, v);
    case Remove(p, id) => RemoveKeeps(r, p, id);
    case Currency(id, v) => CurrencyKeeps(r, id, v);
    case Equip(v) => EquipKeeps(r, v);
    case Rest(s, v) => RestKeeps(r, s, v);
    case TouchActivity => ActivityTouchKeeps(r);
    case Relogin => ReloginKeeps(r);
    case FlushSync(usePatch, online, sendOk) => FlushStep(r, usePatch, online, sendOk);
    case SaveNow(force, fails) => SaveSyncs(r, force, fails);
    case PersistNow(force, due, fails) => PersistSyncs(r, force, due, fails);
    case Replace(c) => ReplaceEffect(r, c);
  }

  /** What an operation does to the server's content: a tracked change makes exactly its change, and
      nothing else touches it; a login brings the client to it. */
  lemma ContentAfter(r: RoleState, op: Op)
    requires Shaped(r) && Legal(op)
    ensures var (c, c') := (r.content, Apply(r, op).content);
            match op
            case Upsert(p, id, v) => c' == c.(tables := c.tables[p := c.tables[p][id := v]])
            case Remove(p, id) => c' == c.(tables := c.tables[p := c.tables[p] - {id}])
            case Currency(id, v) => c' == c.(tables := c.tables[Currencies := c.tables[Currencies][id := v]])
            case Equip(v) => c' == c.(equip := v)
            case Rest(s, v) => c' == c.(rest := c.rest[s := v])
            case Replace(d) => c' == d
            case _ => c' == c
    ensures op.Relogin? ==> Apply(r, op).client == r.content
  {
    hide Flush, Save, FlushPersist, MarkPatchSection, IsAll, SectionOf, AllStored, StoredNow;
    match op
    case FlushSync(usePatch, online, sendOk) => FlushFrame(r, usePatch, online, sendOk);
    case SaveNow(force, fails) => SaveEffect(r, force, fails);
    case PersistNow(force, due, fails) => PersistFrame(r, force, due, fails);
    case Upsert(p, _, _) => PatchSectionEffect(SetTable(r, p, r.content.tables[p][op.id := op.v]), SectionOf(p));
    case Remove(p, _) => PatchSectionEffect(SetTable(r, p, r.content.tables[p] - {op.id}), SectionOf(p));
    case Equip(v) => PatchSectionEffect(r.(content := r.content.(equip := v)), Icon);
    case TouchActivity => PatchSectionEffect(r, ActivityTask);
    case _ =>
  }

  lemma PersistFrame(r: RoleState, force: bool, due: bool, fails: Mask)
    requires Shaped(r)
    ensures FlushPersist(r, force, due, fails).0.content == r.content
  {
    hide Save, AllStored, StoredNow;
    SaveEffect(r, false, fails);
  }

  lemma MarkFullKeeps(r: RoleState, flag: Mask)
    requires Shaped(r)
    ensures Shaped(MarkFullSync(r, flag)) && (SyncInv(r) ==> SyncInv(MarkFullSync(r, flag)))
  {
    if SyncInv(r) {
      FullSyncKeeps(r, flag);
    }
  }

  lemma FlushStep(r: RoleState, usePatch: bool, online: bool, sendOk: bool)
    requires Shaped(r)
    ensures var r' := Flush(r, usePatch, online, sendOk).0;
            Shaped(r') && (SyncInv(r) ==> SyncInv(r'))
  {
    hide Flush, SyncInv;
    FlushFrame(r, usePatch, online, sendOk);
    if SyncInv(r) {
      FlushSyncs(r, usePatch, online, sendOk);
    }
  }

  lemma StoreOnly(r: RoleState, r': RoleState)
    requires Shaped(r) && Shaped(r')
    requires r' == r.(stored := r'.stored, written := r'.written, persistDirty := r'.persistDirty, needPersist := r'.needPersist)
    ensures SyncInv(r) ==> SyncInv(r')
  {
    hide SectionOf, MarksOk, TableSynced, Patchable;
    forall p: Part
      ensures TableOk(r, p) ==> TableOk(r', p)
    {
    }
  }

  lemma SaveSyncs(r: RoleState, force: bool, fails: Mask)
    requires Shaped(r)
    ensures var r' := Save(r, force, fails).0;
            Shaped(r') && (SyncInv(r) ==> SyncInv(r'))
  {
    hide Save, SyncInv, AllStored, StoredNow, SaveMask;
    SaveEffect(r, force, fails);
    StoreOnly(r, Save(r, force, fails).0);
  }

  lemma PersistSyncs(r: RoleState, force: bool, due: bool, fails: Mask)
    requires Shaped(r)
    ensures var r' := FlushPersist(r, force, due, fails).0;
            Shaped(r') && (SyncInv(r) ==> SyncInv(r'))
  {
    hide Save, SyncInv, AllStored, StoredNow, SaveMask;
    SaveEffect(r, false, fails);
    StoreOnly(r, FlushPersist(r, force, due, fails).0);
  }

  /** The persistence invariant survives every operation but a replacement of the whole content. */
  lemma StepPersists(r: RoleState, op: Op)
    requires Shaped(r) && PersistInv(r) && Legal(op) && !op.Replace?
    ensures Shaped(Apply(r, op)) && PersistInv(Apply(r, op))
  {
    hide PersistInv, Flush, SetEntry, DeleteEntry, SetCurrency, SetEquip, SetRest, TouchActvityTaskInfo, ReplaceContent;
    hide ChangedIn, Save, FlushPersist, Relogged, AllStored, SyncInv, MarkFullSync, StoredNow;
    StepSyncs(r, op);
    var r' := Apply(r, op);
    match op
    case MarkFull(flag) => SameStore(r, r') by { MarkFullFrame(r, flag); }
    case Upsert(p, id, v) => UpsertKeeps(r, p, id, v); ChangeKeepsPersist(r, r', SectionOf(p));
    case Remove(p, id) => RemoveKeeps(r, p, id); ChangeKeepsPersist(r, r', SectionOf(p));
    case Currency(id, v) => CurrencyKeeps(r, id, v); ChangeKeepsPersist(r, r', Basic);
    case Equip(v) => EquipKeeps(r, v); ChangeKeepsPersist(r, r', Icon);
    case Rest(s, v) => RestKeeps(r, s, v); ChangeKeepsPersist(r, r', s);
    case TouchActivity => ActivityTouchKeeps(r); ChangeKeepsPersist(r, r', ActivityTask);
    case Relogin => SameStore(r, r') by { ReloginFrame(r); }
    case FlushSync(usePatch, online, sendOk) => SameStore(r, r') by { FlushFrame(r, usePatch, online, sendOk); }
    case SaveNow(force, fails) => SaveKeeps(r, force, fails);
    case PersistNow(force, due, fails) => FlushPersistStores(r, force, due, fails);
  }

  lemma MarkFullFrame(r: RoleState, flag: Mask)
    ensures var r' := MarkFullSync(r, flag); r' == r.(full := r'.full, patch := r'.patch)
  {
  }

  lemma ReloginFrame(r: RoleState)
    ensures Relogged(r) == r.(client := r.content)
  {
  }

  lemma SameStore(r: RoleState, r': RoleState)
    requires Shaped(r) && Shaped(r') && PersistInv(r)
    requires r'.content == r.content && r'.stored == r.stored && r'.written == r.written
    requires r'.persistDirty == r.persistDirty && r'.needPersist == r.needPersist
    ensures PersistInv(r')
  {
    hide SameSection;
    forall s: Section | s !in r'.persistDirty
      ensures StoredNow(r', s)
    {
      assert StoredNow(r, s);
    }
  }

  ghost predicate AllLegal(ops: seq<Op>) {
    forall i :: 0 <= i < |ops| ==> Legal(ops[i])
  }

  ghost function Run(r: RoleState, ops: seq<Op>): (r': RoleState)
    requires Shaped(r) && AllLegal(ops)
    ensures Shaped(r')
    decreases |ops|
  {
    if ops == [] then r
    else
      StepSyncs(r, ops[0]);
      Run(Apply(r, ops[0]), ops[1..])
  }

  lemma {:induction false} RunKeepsSync(r: RoleState, ops: seq<Op>)
    requires Shaped(r) && SyncInv(r) && AllLegal(ops)
    ensures SyncInv(Run(r, ops))
    decreases |ops|
  {
    hide SyncInv, Apply, Legal;
    if ops != [] {
      StepSyncs(r, ops[0]);
      RunKeepsSync(Apply(r, ops[0]), ops[1..]);
    }
  }

  lemma {:induction false} RunKeepsPersist(r: RoleState, ops: seq<Op>)
    requires Shaped(r) && PersistInv(r) && AllLegal(ops) && forall i :: 0 <= i < |ops| ==> !ops[i].Replace?
    ensures PersistInv(Run(r, ops))
    decreases |ops|
  {
    hide PersistInv, Apply, Legal;
    if ops != [] {
      StepPersists(r, ops[0]);
      RunKeepsPersist(Apply(r, ops[0]), ops[1..]);
    }
  }

  /** The sync theorem: after any run of changes, marks, logins, failed or successful flushes and
      switches of mode, a flush of an online role whose send, if any, succeeds leaves the client with
      exactly the server's role, and so does any other flush that reports neither an offline role nor a
      failed send. */
  lemma ReplicaConverges(r: RoleState, ops: seq<Op>, usePatch: bool, online: bool, sendOk: bool)
    requires Shaped(r) && SyncInv(r) && AllLegal(ops)
    ensures var now := Run(r, ops);
            var (after, result) := Flush(now, usePatch, online, sendOk);
            (online && sendOk) || (!result.Offline? && !result.SendFailed?) ==>
              after.client == now.content && after.content == now.content
  {
    hide SyncInv, Flush, Legal, Apply, MessageDue;
    RunKeepsSync(r, ops);
    FlushSyncs(Run(r, ops), usePatch, online, sendOk);
    FlushByInputs(Run(r, ops), usePatch, online, sendOk);
    var result := Flush(Run(r, ops), usePatch, online, sendOk).1;
    assert result.Offline? || result.SendFailed? || result.Sent? || result.NothingDirty? || result.NothingToDo?;
  }

  /** At every point of every run, each mark is pending under a mask, no entry is marked both ways, and
      no section is pending both as a whole and as a patch. */
  lemma MarksAreCovered(r: RoleState, ops: seq<Op>, p: Part)
    requires Shaped(r) && SyncInv(r) && AllLegal(ops)
    ensures var now := Run(r, ops);
            && now.upserts[p] !! now.deletes[p] && now.full !! now.patch
            && (now.upserts[p] + now.deletes[p] != {} ==> SectionOf(p) in now.full + now.patch)
  {
    RunKeepsSync(r, ops);
    assert TableOk(Run(r, ops), p);
    hide Run, MarksOk, TableSynced, SectionOf, RestOk;
  }

  /** The persistence theorem: after any run with saves that fail part way, a forced flush that
      reports success leaves the store with exactly the server's role. */
  lemma StoreConverges(r: RoleState, ops: seq<Op>, fails: Mask)
    requires Shaped(r) && PersistInv(r) && AllLegal(ops) && forall i :: 0 <= i < |ops| ==> !ops[i].Replace?
    ensures var now := Run(r, ops);
            var (after, ok) := FlushPersist(now, true, false, fails);
            Shaped(after) && (ok ==> AllStored(after) && after.content == now.content)
  {
    hide PersistInv, FlushPersist, Legal, Apply, AllStored;
    RunKeepsPersist(r, ops);
    FlushPersistStores(Run(r, ops), true, false, fails);
  }

  function ChangeActivity(r: RoleState, v: int): RoleState {
    TouchActvityTaskInfo(r.(content := r.content.(rest := r.content.rest[ActivityTask := v])))
  }

  lemma ChangeActivityEffect(r: RoleState, v: int)
    requires Shaped(r)
    ensures var r' := ChangeActivity(r, v);
            && Shaped(r') && r'.full == r.full && (ActivityTask in r.full || ActivityTask in r'.patch)
            && r'.client == r.client && r'.content.rest[ActivityTask] == v
  {
  }

  /** A change of the activity section outside its task table, followed by TouchActvityTaskInfo: a
      successful flush delivers it exactly when it does not go out as a patch (or changed nothing),
      because the patch of that section carries tasks only. */
  lemma TouchedActivityArrives(r: RoleState, v: int, usePatch: bool)
    requires Shaped(r)
    ensures Shaped(ChangeActivity(r, v))
    ensures var c := Flush(ChangeActivity(r, v), usePatch, true, true).0.client;
            && ActivityTask in c.rest
            && (c.rest[ActivityTask] == v
                <==> !usePatch || ActivityTask in r.full || r.client.rest[ActivityTask] == v)
  {
    hide Flush, ChangeActivity;
    ChangeActivityEffect(r, v);
    FlushedRest(ChangeActivity(r, v), usePatch, ActivityTask);
  }

  lemma PendingIsSent(r: RoleState, usePatch: bool, s: Section)
    requires (s in r.full || s in r.patch) && Patchable(s)
    ensures var (full, requested) := SyncMasks(r, usePatch);
            (s in full <==> s in r.full || !usePatch) && (s in full || s in requested)
  {
  }

  /** What a successful flush does to a field that is no table entry. */
  lemma FlushedRest(r: RoleState, usePatch: bool, s: Section)
    requires Shaped(r) && (s in r.full || s in r.patch) && Patchable(s)
    ensures var c := Flush(r, usePatch, true, true).0.client;
            s in c.rest && c.rest[s] == if s in r.full || !usePatch then r.content.rest[s] else r.client.rest[s]
  {
    hide SyncMasks, ActualPatchMask, ClearSynced, Receive, BuildPayload, Patchable, SectionOf;
    var (full, requested) := SyncMasks(r, usePatch);
    PendingIsSent(r, usePatch, s);
    ReceivedField(r, full, requested, s);
    if full == {} && ActualPatchMask(r, requested) == {} {
      ClearSyncedEffect(r, {}, requested);
    } else {
      ClearSyncedEffect(r.(client := Receive(r.client, BuildPayload(r, full, requested))), full, requested);
    }
  }

  lemma ReceivedField(r: RoleState, full: Mask, requested: Mask, s: Section)
    requires Shaped(r)
    ensures BuildPayload(r, full, requested).info == r.content
    ensures var c := Receive(r.client, BuildPayload(r, full, requested));
            Whole(c) && c.rest[s] == if s in full then r.content.rest[s] else r.client.rest[s]
  {
    hide ActualPatchMask, SectionOf;
  }
}
