/**
 * VacancyController and the Vacancy model: creating, updating and deleting
 * vacancies, the public active-only listing, lookup by id, and the pivot
 * synchroniser `syncPivotItems` that reconciles a submitted list of
 * `{text, sort_order}` items with a natural-key text pool and a sort-ordered
 * pivot table.
 */
module Vacancies {
  import opened Support
  import opened Pools
  import opened Schema
  import opened Views

  /** One entry of a submitted `responsibilities` / `requirements` / `conditions` list. */
  datatype PivotItem = PivotItem(text: string, sortOrder: Option<int>)

  function Texts(items: seq<PivotItem>): (r: seq<string>)
    ensures |r| == |items| && forall i :: 0 <= i < |items| ==> r[i] == items[i].text
  {
    seq(|items|, i requires 0 <= i < |items| => items[i].text)
  }

  /** The pivot's sort orders: `$item['sort_order'] ?? 0`. */
  function Orders(items: seq<PivotItem>): (r: seq<int>)
    ensures |r| == |items| && forall i :: 0 <= i < |items| ==> r[i] == items[i].sortOrder.GetOr(0)
  {
    seq(|items|, i requires 0 <= i < |items| => items[i].sortOrder.GetOr(0))
  }

  /** No later entry of `ids` repeats the entry at `i`. */
  predicate LastOccurrence(ids: seq<Id>, i: nat)
    requires i < |ids|
  {
    forall j :: i < j < |ids| ==> ids[j] != ids[i]
  }

  /**
   * `$syncData[$id] = ['sort_order' => ...]` over the list in order: one entry
   * per distinct id, and the last occurrence of an id decides its sort order.
   */
  function SyncData(ids: seq<Id>, orders: seq<int>): (d: map<Id, int>)
    requires |ids| == |orders|
    ensures forall x :: x in d <==> x in ids
    ensures forall i :: 0 <= i < |ids| && LastOccurrence(ids, i) ==> d[ids[i]] == orders[i]
    decreases |ids|
  {
    if ids == [] then map[]
    else
      var n := |ids| - 1;
      var prev := SyncData(ids[..n], orders[..n]);
      LastOccurrenceInit(ids);
      prev[ids[n] := orders[n]]
  }

  /** An id whose occurrence at `i` is the last one keeps being the last in the prefix, and differs from the final id. */
  lemma LastOccurrenceInit(ids: seq<Id>)
    requires ids != []
    ensures var n := |ids| - 1;
      && (forall x :: x in ids <==> x in ids[..n] || x == ids[n])
      && (forall i :: 0 <= i < n ==> ids[..n][i] == ids[i])
      && (forall i :: 0 <= i < n && LastOccurrence(ids, i) ==> LastOccurrence(ids[..n], i) && ids[i] != ids[n])
  {
    var n := |ids| - 1;
    assert ids == ids[..n] + [ids[n]];
  }

  lemma SyncDataSnoc(ids: seq<Id>, orders: seq<int>, id: Id, order: int)
    requires |ids| == |orders|
    ensures SyncData(ids + [id], orders + [order]) == SyncData(ids, orders)[id := order]
  {
    assert (ids + [id])[..|ids|] == ids;
    assert (orders + [order])[..|orders|] == orders;
  }

  lemma ListsSnoc(items: seq<PivotItem>, i: nat)
    requires i < |items|
    ensures Texts(items[..i + 1]) == Texts(items[..i]) + [items[i].text]
    ensures Orders(items[..i + 1]) == Orders(items[..i]) + [items[i].sortOrder.GetOr(0)]
  {
    var a, b := Texts(items[..i + 1]), Texts(items[..i]) + [items[i].text];
    assert |a| == |b|;
    forall k | 0 <= k < |a| ensures a[k] == b[k] {
      if k < i { assert b[k] == Texts(items[..i])[k]; }
    }
    var c, d := Orders(items[..i + 1]), Orders(items[..i]) + [items[i].sortOrder.GetOr(0)];
    assert |c| == |d|;
    forall k | 0 <= k < |c| ensures c[k] == d[k] {
      if k < i { assert d[k] == Orders(items[..i])[k]; }
    }
  }

  /**
   * The loop of `syncPivotItems`: `firstOrCreate` each item's exact text and
   * record its sort order under the resolved id.
   */
  method BuildSyncData(pool: Pool, items: seq<PivotItem>) returns (pool': Pool, data: map<Id, int>)
    ensures pool' == Resolve(pool, Texts(items)).0
    ensures data == SyncData(Resolve(pool, Texts(items)).1, Orders(items))
  {
    pool', data := pool, map[];
    assert items[..0] == [] && Texts([]) == [] && Orders([]) == [];
    for i := 0 to |items|
      invariant pool' == Resolve(pool, Texts(items[..i])).0
      invariant data == SyncData(Resolve(pool, Texts(items[..i])).1, Orders(items[..i]))
    {
      BuildStep(pool, items, i);
      var step := FirstOrCreate(pool', items[i].text);
      pool' := step.0;
      data := data[step.1 := items[i].sortOrder.GetOr(0)];
    }
    assert items[..|items|] == items;
  }

  /** One turn of the loop of `BuildSyncData`: one `firstOrCreate` and one entry of the sync data. */
  lemma BuildStep(pool: Pool, items: seq<PivotItem>, i: nat)
    requires i < |items|
    ensures var prev := Resolve(pool, Texts(items[..i]));
      var step := FirstOrCreate(prev.0, items[i].text);
      && Resolve(pool, Texts(items[..i + 1])).0 == step.0
      && SyncData(Resolve(pool, Texts(items[..i + 1])).1, Orders(items[..i + 1]))
         == SyncData(prev.1, Orders(items[..i]))[step.1 := items[i].sortOrder.GetOr(0)]
  {
    var prev := Resolve(pool, Texts(items[..i]));
    var step := FirstOrCreate(prev.0, items[i].text);
    ListsSnoc(items, i);
    ResolveSnoc(pool, Texts(items[..i]), items[i].text);
    SyncDataSnoc(prev.1, Orders(items[..i]), step.1, items[i].sortOrder.GetOr(0));
  }

  /**
   * `syncPivotItems($vacancy, $items, ...)` with a list: the pool after the
   * find-or-create loop and the pivot after `sync`, which replaces the
   * vacancy's association set by the ids of the submitted texts and leaves
   * other vacancies alone.
   */
  function Sync(pool: Pool, pivot: SortPivot, vacancy: Id, items: seq<PivotItem>): (r: (Pool, SortPivot))
    ensures Extends(pool, r.0)
    ensures forall t :: t in r.0.ids <==> t in pool.ids || t in Texts(items)
    ensures forall u :: u in r.1 <==> u in pivot || u == vacancy
    ensures forall u :: u in pivot && u != vacancy ==> r.1[u] == pivot[u]
    ensures forall t :: t in Texts(items) ==> t in r.0.ids && r.0.ids[t] in r.1[vacancy]
    ensures forall x :: x in r.1[vacancy] ==> exists t :: t in Texts(items) && t in r.0.ids && r.0.ids[t] == x
    ensures PoolValid(pool) ==> PoolValid(r.0)
  {
    var res := Resolve(pool, Texts(items));
    (res.0, pivot[vacancy := SyncData(res.1, Orders(items))])
  }

  /**
   * After a sync, every item's text resolved to a pool row whose sort order
   * is the item's own (0 when absent), unless the same text comes again
   * later in the list, in which case the later item wins.
   */
  lemma SyncOrders(pool: Pool, pivot: SortPivot, vacancy: Id, items: seq<PivotItem>, i: nat)
    requires PoolValid(pool)
    requires i < |items|
    requires forall j :: i < j < |items| ==> items[j].text != items[i].text
    ensures var r := Sync(pool, pivot, vacancy, items);
      r.1[vacancy][r.0.ids[items[i].text]] == items[i].sortOrder.GetOr(0)
  {
    var texts := Texts(items);
    var res := Resolve(pool, texts);
    forall j | i < j < |items| ensures res.1[j] != res.1[i] {
      assert texts[j] != texts[i];
    }
    assert LastOccurrence(res.1, i);
  }

  /** Submitting the same list again leaves both the pool and the pivot unchanged. */
  lemma SyncIdempotent(pool: Pool, pivot: SortPivot, vacancy: Id, items: seq<PivotItem>)
    ensures var r := Sync(pool, pivot, vacancy, items);
      Sync(r.0, r.1, vacancy, items).0 == r.0 && Sync(r.0, r.1, vacancy, items).1 == r.1
  {
    var texts := Texts(items);
    var res := Resolve(pool, texts);
    ResolveIdempotent(pool, texts);
    var data := SyncData(res.1, Orders(items));
    var r := (res.0, pivot[vacancy := data]);
    SyncWith(pool, pivot, vacancy, items, res);
    SyncWith(r.0, r.1, vacancy, items, res);
    UpdateSame(pivot, vacancy, data);
  }

  /** `Sync` in terms of a given resolution of the texts. */
  lemma SyncWith(pool: Pool, pivot: SortPivot, vacancy: Id, items: seq<PivotItem>, res: (Pool, seq<Id>))
    requires res == Resolve(pool, Texts(items))
    ensures Sync(pool, pivot, vacancy, items).0 == res.0
    ensures Sync(pool, pivot, vacancy, items).1 == pivot[vacancy := SyncData(res.1, Orders(items))]
  {
  }

  /** Sync keeps the pool valid and the pivot's references inside the vacancies and the pool. */
  lemma SyncKeepsRefs(pool: Pool, pivot: SortPivot, vacancy: Id, items: seq<PivotItem>, parents: set<Id>)
    requires PoolValid(pool) && SortPivotRefs(pivot, parents, pool.ids.Values) && vacancy in parents
    ensures var r := Sync(pool, pivot, vacancy, items);
      PoolValid(r.0) && SortPivotRefs(r.1, parents, r.0.ids.Values)
  {
    var r := Sync(pool, pivot, vacancy, items);
    assert pool.ids.Values <= r.0.ids.Values by {
      forall x | x in pool.ids.Values ensures x in r.0.ids.Values {
        var k :| k in pool.ids && pool.ids[k] == x;
        assert r.0.ids[k] == x;
      }
    }
    forall x | x in r.1[vacancy].Keys ensures x in r.0.ids.Values {
      var t :| t in Texts(items) && t in r.0.ids && r.0.ids[t] == x;
    }
  }

  /** One `syncPivotItems` call on the pool and pivot of `kind`; a null list changes nothing. */
  function SyncKind(pools: map<ItemKind, Pool>, pivots: map<ItemKind, SortPivot>, kind: ItemKind,
                    vacancy: Id, items: Option<seq<PivotItem>>): (r: (map<ItemKind, Pool>, map<ItemKind, SortPivot>))
    requires kind in pools && kind in pivots
    ensures items.None? ==> r == (pools, pivots)
    ensures r.0.Keys == pools.Keys && r.1.Keys == pivots.Keys
    ensures forall k :: k in pools && k != kind ==> r.0[k] == pools[k]
    ensures forall k :: k in pivots && k != kind ==> r.1[k] == pivots[k]
  {
    if items.None? then (pools, pivots)
    else
      var s := Sync(pools[kind], pivots[kind], vacancy, items.value);
      (pools[kind := s.0], pivots[kind := s.1])
  }

  lemma SyncKindValid(pools: map<ItemKind, Pool>, pivots: map<ItemKind, SortPivot>, kind: ItemKind,
                      vacancy: Id, items: Option<seq<PivotItem>>, vacancies: Table<Vacancy>)
    requires ItemsValid(pools, pivots, vacancies) && vacancy in vacancies.rows
    ensures kind in pools && kind in pivots
    ensures var r := SyncKind(pools, pivots, kind, vacancy, items); ItemsValid(r.0, r.1, vacancies)
  {
    assert kind in pools && kind in pivots;
    if items.Some? {
      var s := Sync(pools[kind], pivots[kind], vacancy, items.value);
      SyncKeepsRefs(pools[kind], pivots[kind], vacancy, items.value, vacancies.rows.Keys);
      var r := (pools[kind := s.0], pivots[kind := s.1]);
      assert SyncKind(pools, pivots, kind, vacancy, items) == r;
      forall k: ItemKind ensures k in r.0 && k in r.1 && PoolValid(r.0[k])
        && SortPivotRefs(r.1[k], vacancies.rows.Keys, r.0[k].ids.Values)
      {
        if k != kind {
          assert k in pools && k in pivots && PoolValid(pools[k])
            && SortPivotRefs(pivots[k], vacancies.rows.Keys, pools[k].ids.Values);
        }
      }
    }
  }

  /** The value-level work of one `syncPivotItems` call. */
  method ApplySync(pools: map<ItemKind, Pool>, pivots: map<ItemKind, SortPivot>, kind: ItemKind,
                   vacancy: Id, items: Option<seq<PivotItem>>)
    returns (pools': map<ItemKind, Pool>, pivots': map<ItemKind, SortPivot>)
    requires kind in pools && kind in pivots
    ensures (pools', pivots') == SyncKind(pools, pivots, kind, vacancy, items)
  {
    pools', pivots' := pools, pivots;
    if items.Some? {
      var pool, data := BuildSyncData(pools[kind], items.value);
      var pivot: SortPivot := pivots[kind];
      pivot := pivot[vacancy := data];
      pools', pivots' := pools[kind := pool], pivots[kind := pivot];
    }
  }

  method SyncPivotItems(db: Database, kind: ItemKind, vacancy: Id, items: Option<seq<PivotItem>>)
    requires db.Valid() && vacancy in db.vacancies.rows
    modifies db`itemPools, db`itemPivots
    ensures db.Valid()
    ensures (db.itemPools, db.itemPivots) == SyncKind(old(db.itemPools), old(db.itemPivots), kind, vacancy, items)
  {
    SyncKindValid(db.itemPools, db.itemPivots, kind, vacancy, items, db.vacancies);
    var pools, pivots := ApplySync(db.itemPools, db.itemPivots, kind, vacancy, items);
    db.SetItems(pools, pivots);
  }

  /** The request fields `store` and `update` read. */
  datatype VacancyInput = VacancyInput(
    name: Option<string>, departmentId: Option<int>, status: Option<string>,
    responsibilities: Option<seq<PivotItem>>, requirements: Option<seq<PivotItem>>,
    conditions: Option<seq<PivotItem>>)

  function StatusName(s: VacancyStatus): string {
    match s
    case Active => "active"
    case Inactive => "inactive"
    case Draft => "draft"
  }

  /** The rule `in:active,inactive,draft`. */
  function ParseStatus(s: string): (r: Option<VacancyStatus>)
    ensures r.Some? <==> s in {"active", "inactive", "draft"}
    ensures r.Some? ==> StatusName(r.value) == s
  {
    if s == "active" then Some(Active)
    else if s == "inactive" then Some(Inactive)
    else if s == "draft" then Some(Draft)
    else None
  }

  lemma StatusRoundTrip(s: VacancyStatus)
    ensures ParseStatus(StatusName(s)) == Some(s)
  {
  }

  /** `*.text` is required, `*.sort_order` an integer of at least 0 when given. */
  predicate ItemsAccepted(items: Option<seq<PivotItem>>) {
    items.Some? ==> forall i :: 0 <= i < |items.value| ==>
      Required(items.value[i].text) && (items.value[i].sortOrder.Some? ==> items.value[i].sortOrder.value >= 0)
  }

  predicate NameAccepted(name: string) {
    Required(name) && |name| <= 255
  }

  predicate DepartmentExists(departments: Table<Department>, id: int) {
    id >= 0 && id in departments.rows
  }

  /**
   * `in:active,inactive,draft` is not an implicit rule, so it is skipped on a
   * blank value: only a filled status has to be one of the three names.
   */
  predicate StatusAccepted(status: Option<string>) {
    status.Some? && Required(status.value) ==> ParseStatus(status.value).Some?
  }

  /** A blank status passes the rules of `store` and `update` and is written as given. */
  lemma BlankStatusAccepted(departments: Table<Department>, v: Vacancy, input: VacancyInput)
    requires input.status.Some? && !Required(input.status.value)
    requires input.departmentId.Some? ==> input.departmentId.value >= 0
    ensures StoreAccepts(departments, input) <==> StoreAccepts(departments, input.(status := None))
    ensures UpdateAccepts(departments, input) <==> UpdateAccepts(departments, input.(status := None))
    ensures Fill(v, input).status == input.status
  {
  }

  /** The status an accepted request writes: none, a blank one, or one of the three names. */
  lemma AcceptedStatus(status: Option<string>)
    requires StatusAccepted(status)
    ensures status.Some? ==> !Required(status.value) || status.value in {"active", "inactive", "draft"}
  {
  }

  predicate ListsAccepted(input: VacancyInput) {
    ItemsAccepted(input.responsibilities) && ItemsAccepted(input.requirements) && ItemsAccepted(input.conditions)
  }

  /** The validation rules of `store`. */
  predicate StoreAccepts(departments: Table<Department>, input: VacancyInput) {
    && input.name.Some? && NameAccepted(input.name.value)
    && input.departmentId.Some? && DepartmentExists(departments, input.departmentId.value)
    && StatusAccepted(input.status)
    && ListsAccepted(input)
  }

  /** The validation rules of `update`: a field is checked only when present. */
  predicate UpdateAccepts(departments: Table<Department>, input: VacancyInput) {
    && (input.name.Some? ==> NameAccepted(input.name.value))
    && (input.departmentId.Some? ==> DepartmentExists(departments, input.departmentId.value))
    && StatusAccepted(input.status)
    && ListsAccepted(input)
  }

  /** The three syncs `store` and `update` run, in order. */
  function SyncAll(pools: map<ItemKind, Pool>, pivots: map<ItemKind, SortPivot>, vacancy: Id, input: VacancyInput)
    : (r: (map<ItemKind, Pool>, map<ItemKind, SortPivot>))
    requires forall k: ItemKind :: k in pools && k in pivots
  {
    var a := SyncKind(pools, pivots, Responsibility, vacancy, input.responsibilities);
    var b := SyncKind(a.0, a.1, Requirement, vacancy, input.requirements);
    SyncKind(b.0, b.1, Condition, vacancy, input.conditions)
  }

  method SyncLists(db: Database, vacancy: Id, input: VacancyInput)
    requires db.Valid() && vacancy in db.vacancies.rows
    modifies db`itemPools, db`itemPivots
    ensures db.Valid()
    ensures old(forall k: ItemKind :: k in db.itemPools && k in db.itemPivots)
    ensures (db.itemPools, db.itemPivots) == SyncAll(old(db.itemPools), old(db.itemPivots), vacancy, input)
  {
    SyncPivotItems(db, Responsibility, vacancy, input.responsibilities);
    SyncPivotItems(db, Requirement, vacancy, input.requirements);
    SyncPivotItems(db, Condition, vacancy, input.conditions);
  }

  /**
   * `store`: a rejected request is a 422 and changes nothing; an accepted one
   * creates the vacancy from name, department_id and status only, then syncs
   * its three lists.
   */
  method Store(db: Database, input: VacancyInput) returns (r: Result<Id>)
    requires db.Valid()
    modifies db`vacancies, db`itemPools, db`itemPivots
    ensures db.Valid()
    ensures !StoreAccepts(old(db.departments), input) ==>
      r == Err(ValidationFailed) && db.vacancies == old(db.vacancies)
      && db.itemPools == old(db.itemPools) && db.itemPivots == old(db.itemPivots)
    ensures StoreAccepts(old(db.departments), input) ==>
      && r == Ok(old(db.vacancies.next))
      && db.vacancies.rows == old(db.vacancies.rows)[r.value :=
           Vacancy(input.name.value, input.departmentId.value as nat, input.status)]
      && old(forall k: ItemKind :: k in db.itemPools && k in db.itemPivots)
      && (db.itemPools, db.itemPivots) == SyncAll(old(db.itemPools), old(db.itemPivots), r.value, input)
  {
    if !StoreAccepts(db.departments, input) {
      return Err(ValidationFailed);
    }
    var row := Vacancy(input.name.value, input.departmentId.value as nat, input.status);
    var ins := db.vacancies.Insert(row);
    ItemsValidGrow(db.itemPools, db.itemPivots, db.vacancies, ins.0);
    db.SetVacancyRows(ins.0);
    SyncLists(db, ins.1, input);
    r := Ok(ins.1);
  }

  /** `$vacancy->update($request->only(['name', 'department_id', 'status']))`. */
  function Fill(v: Vacancy, input: VacancyInput): Vacancy
    requires input.departmentId.Some? ==> input.departmentId.value >= 0
  {
    Vacancy(
      if input.name.Some? then input.name.value else v.name,
      if input.departmentId.Some? then input.departmentId.value as nat else v.departmentId,
      if input.status.Some? then input.status else v.status)
  }

  /**
   * `update`: an unknown id is a 404 and a rejected request a 422, neither
   * changing anything; otherwise only the supplied fillable fields change and
   * each supplied list is synced.
   */
  method Update(db: Database, id: Id, input: VacancyInput) returns (r: Result<Id>)
    requires db.Valid()
    modifies db`vacancies, db`itemPools, db`itemPivots
    ensures db.Valid()
    ensures id !in old(db.vacancies.rows) ==> r == Err(NotFound("Vacancy not found"))
    ensures id in old(db.vacancies.rows) && !UpdateAccepts(old(db.departments), input) ==> r == Err(ValidationFailed)
    ensures r.Err? ==>
      db.vacancies == old(db.vacancies) && db.itemPools == old(db.itemPools) && db.itemPivots == old(db.itemPivots)
    ensures id in old(db.vacancies.rows) && UpdateAccepts(old(db.departments), input) ==>
      && r == Ok(id)
      && db.vacancies.next == old(db.vacancies.next)
      && db.vacancies.rows == old(db.vacancies.rows)[id := Fill(old(db.vacancies.rows[id]), input)]
      && old(forall k: ItemKind :: k in db.itemPools && k in db.itemPivots)
      && (db.itemPools, db.itemPivots) == SyncAll(old(db.itemPools), old(db.itemPivots), id, input)
  {
    if id !in db.vacancies.rows {
      return Err(NotFound("Vacancy not found"));
    }
    if !UpdateAccepts(db.departments, input) {
      return Err(ValidationFailed);
    }
    var vacancies := db.vacancies.Put(id, Fill(db.vacancies.rows[id], input));
    assert vacancies.rows.Keys == db.vacancies.rows.Keys;
    ItemsValidGrow(db.itemPools, db.itemPivots, db.vacancies, vacancies);
    db.SetVacancyRows(vacancies);
    SyncLists(db, id, input);
    r := Ok(id);
  }

  /** The applications that survive deleting vacancy `id` (cascade on `vacancy_id`). */
  function ApplicationsWithout(applications: map<Id, Application>, vacancy: Id): (r: map<Id, Application>)
    ensures forall a :: a in r <==> a in applications && applications[a].vacancyId != vacancy
    ensures forall a :: a in r ==> r[a] == applications[a]
  {
    map a | a in applications && applications[a].vacancyId != vacancy :: applications[a]
  }

  /** Every item pivot without the rows of vacancy `id`. */
  function DetachVacancy(pivots: map<ItemKind, SortPivot>, id: Id): (r: map<ItemKind, SortPivot>)
    ensures r.Keys == pivots.Keys
    ensures forall k :: k in r ==> r[k] == pivots[k] - {id}
  {
    map k | k in pivots :: pivots[k] - {id}
  }

  /** Deleting a vacancy together with its pivot rows keeps the item pivots valid. */
  lemma DetachValid(pools: map<ItemKind, Pool>, pivots: map<ItemKind, SortPivot>, vacancies: Table<Vacancy>, id: Id)
    requires ItemsValid(pools, pivots, vacancies)
    ensures ItemsValid(pools, DetachVacancy(pivots, id), vacancies.(rows := vacancies.rows - {id}))
  {
    var d := DetachVacancy(pivots, id);
    forall k: ItemKind ensures k in pools && k in d && PoolValid(pools[k])
      && SortPivotRefs(d[k], (vacancies.rows - {id}).Keys, pools[k].ids.Values)
    {
      assert k in pools && k in pivots && SortPivotRefs(pivots[k], vacancies.rows.Keys, pools[k].ids.Values);
    }
  }

  /**
   * `destroy`: an unknown id is a 404; otherwise the vacancy goes, and with it
   * its pivot rows and its applications.
   */
  method Destroy(db: Database, id: Id) returns (r: Result<()>)
    requires db.Valid()
    modifies db`vacancies, db`itemPivots, db`applications
    ensures db.Valid()
    ensures id !in old(db.vacancies.rows) ==>
      r == Err(NotFound("Vacancy not found")) && db.vacancies == old(db.vacancies)
      && db.itemPivots == old(db.itemPivots) && db.applications == old(db.applications)
    ensures id in old(db.vacancies.rows) ==>
      && r == Ok(())
      && db.vacancies == old(db.vacancies).(rows := old(db.vacancies.rows) - {id})
      && db.itemPivots == DetachVacancy(old(db.itemPivots), id)
      && db.applications == old(db.applications).(rows := ApplicationsWithout(old(db.applications.rows), id))
  {
    if id !in db.vacancies.rows {
      return Err(NotFound("Vacancy not found"));
    }
    var vacancies := db.vacancies.(rows := db.vacancies.rows - {id});
    var pivots := DetachVacancy(db.itemPivots, id);
    DetachValid(db.itemPools, db.itemPivots, db.vacancies, id);
    db.SetVacancies(vacancies, pivots, db.applications.(rows := ApplicationsWithout(db.applications.rows, id)));
    r := Ok(());
  }

  /**
   * `index` / `count`: the public listing shows exactly the vacancies whose
   * status is `active`, and `count` answers the size of this set.
   */
  function ActiveVacancies(vacancies: map<Id, Vacancy>): (r: set<Id>)
    ensures forall v :: v in r <==> v in vacancies && vacancies[v].status == Some(StatusName(Active))
  {
    set v | v in vacancies && vacancies[v].status == Some(StatusName(Active))
  }

  /**
   * A vacancy's `responsibilities` / `requirements` / `conditions` relation:
   * its pivot rows, each item once with its sort order, ascending by sort order.
   */
  ghost function Relation(pivots: map<ItemKind, SortPivot>, kind: ItemKind, vacancy: Id): (r: seq<(Id, int)>)
    requires kind in pivots
    ensures IdsOf(r) == Related(pivots[kind], vacancy).Keys
    ensures forall i :: 0 <= i < |r| ==> Related(pivots[kind], vacancy)[r[i].0] == r[i].1
    ensures forall i, j :: 0 <= i < j < |r| ==> r[i].0 != r[j].0
    ensures SortedByOrder(r)
  {
    OrderedView(Related(pivots[kind], vacancy))
  }

  datatype VacancyDetail = VacancyDetail(
    vacancy: Vacancy, responsibilities: seq<(Id, int)>, requirements: seq<(Id, int)>, conditions: seq<(Id, int)>)

  /** `show`: any vacancy by id whatever its status, with its three ordered relations; otherwise a 404. */
  ghost function Show(vacancies: map<Id, Vacancy>, pivots: map<ItemKind, SortPivot>, id: Id): (r: Result<VacancyDetail>)
    requires forall k: ItemKind :: k in pivots
    ensures r.Ok? <==> id in vacancies
    ensures r.Err? ==> r.error == NotFound("Vacancy not found")
    ensures r.Ok? ==>
      && r.value.vacancy == vacancies[id]
      && r.value.responsibilities == Relation(pivots, Responsibility, id)
      && r.value.requirements == Relation(pivots, Requirement, id)
      && r.value.conditions == Relation(pivots, Condition, id)
  {
    if id in vacancies then
      Ok(VacancyDetail(vacancies[id], Relation(pivots, Responsibility, id),
                       Relation(pivots, Requirement, id), Relation(pivots, Condition, id)))
    else Err(NotFound("Vacancy not found"))
  }
}
