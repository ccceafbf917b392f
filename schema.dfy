/**
 * The relational state of the backend: one record datatype per table row,
 * tables as maps from auto-increment id to row, natural-key pools, pivot
 * tables, the schema constraints of the migrations as invariants over them,
 * and the public storage disk as the set of stored paths.
 */
module Schema {
  import opened Support
  import opened Pools

  /** A table with auto-increment ids: its rows and the id the next insert receives. */
  datatype Table<R> = Table(rows: map<Id, R>, next: Id) {
    predicate Valid() {
      forall id :: id in rows ==> id < next
    }

    /** `Model::create(...)`: the new table and the id of the inserted row. */
    function Insert(r: R): (res: (Table<R>, Id))
      ensures res.1 == next && res.0.next == next + 1
      ensures res.0.rows == rows[next := r]
      ensures Valid() ==> res.0.Valid() && res.1 !in rows
    {
      (Table(rows[next := r], next + 1), next)
    }

    /** `$model->update(...)` / `delete()` keep the table valid. */
    function Put(id: Id, r: R): (t: Table<R>)
      requires id in rows
      ensures t.rows == rows[id := r] && t.next == next
      ensures Valid() ==> t.Valid()
    {
      Table(rows[id := r], next)
    }
  }

  function EmptyTable<R>(): (t: Table<R>)
    ensures t.Valid() && t.rows == map[]
  {
    Table(map[], 0)
  }

  datatype User = User(login: string, password: string, roleId: Id)

  /** api_tokens: `expiresAt` None is a token that never expires. */
  datatype ApiToken = ApiToken(userId: Id, token: string, expiresAt: Option<int>)

  datatype Department = Department(name: string)

  datatype VacancyStatus = Active | Inactive | Draft

  /**
   * A vacancy row. `status` is the text written to the column: one of the
   * three names, or a blank string, which the `in` rule lets through. None
   * leaves the column to its database default (the vacancies migration is
   * not part of this model).
   */
  datatype Vacancy = Vacancy(name: string, departmentId: Id, status: Option<string>)

  /** The three text-item pools a vacancy links to through sort-ordered pivots. */
  datatype ItemKind = Responsibility | Requirement | Condition

  /** A sort-ordered pivot: vacancy id -> (item id -> sort_order). */
  type SortPivot = map<Id, map<Id, int>>

  /** A plain pivot: parent id -> set of item ids. */
  type Pivot = map<Id, set<Id>>

  datatype Application = Application(
    vacancyId: Id, name: string, email: string,
    phone: Option<string>, message: Option<string>, resume: Option<string>,
    privacyAgreement: bool)

  datatype ProposalStatus = New | InProgress | Rejected | Accepted

  datatype Proposal = Proposal(
    name: string, email: string, subject: string, message: string,
    fileSrc: Option<string>, status: ProposalStatus, privacyAgreement: bool)

  datatype Game = Game(name: string, aboutGame: Option<string>, trailerLink: Option<string>)

  /** links: `caption` is the nullable `label` column (`label` is a Dafny keyword). */
  datatype Link = Link(url: string, caption: Option<string>)

  datatype GameImage = GameImage(gameId: Id, path: string, isMain: bool, sortOrder: int)

  /** The items a parent is linked to in a sort-ordered pivot (none when it has no row). */
  function Related(pivot: SortPivot, parent: Id): map<Id, int> {
    if parent in pivot then pivot[parent] else map[]
  }

  function Linked(pivot: Pivot, parent: Id): set<Id> {
    if parent in pivot then pivot[parent] else {}
  }

  // ---- Constraints of the migrations and of the model relations ----

  /** users: unique login. */
  predicate UsersValid(users: Table<User>) {
    && users.Valid()
    && forall a, b :: a in users.rows && b in users.rows && users.rows[a].login == users.rows[b].login ==> a == b
  }

  /** api_tokens: unique token values of at most 64 characters, each owned by an existing user. */
  predicate TokensValid(tokens: Table<ApiToken>, users: Table<User>) {
    && tokens.Valid()
    && (forall a, b :: a in tokens.rows && b in tokens.rows && tokens.rows[a].token == tokens.rows[b].token ==> a == b)
    && (forall a :: a in tokens.rows ==> |tokens.rows[a].token| <= 64 && tokens.rows[a].userId in users.rows)
  }

  /** departments: unique name. */
  predicate DepartmentsValid(departments: Table<Department>) {
    && departments.Valid()
    && forall a, b :: (a in departments.rows && b in departments.rows
         && departments.rows[a].name == departments.rows[b].name) ==> a == b
  }

  /** Every vacancy references an existing department. */
  predicate VacanciesValid(vacancies: Table<Vacancy>, departments: Table<Department>) {
    && vacancies.Valid()
    && forall v :: v in vacancies.rows ==> vacancies.rows[v].departmentId in departments.rows
  }

  /** Pivot rows reference existing parents and existing items; (parent, item) pairs are unique by construction. */
  predicate SortPivotRefs(pivot: SortPivot, parents: set<Id>, items: set<Id>) {
    forall p :: p in pivot ==> p in parents && pivot[p].Keys <= items
  }

  predicate PivotRefs(pivot: Pivot, parents: set<Id>, items: set<Id>) {
    forall p :: p in pivot ==> p in parents && pivot[p] <= items
  }

  /** vacancy_responsibility / vacancy_requirement / vacancy_condition and their pools. */
  predicate ItemsValid(pools: map<ItemKind, Pool>, pivots: map<ItemKind, SortPivot>, vacancies: Table<Vacancy>) {
    forall k: ItemKind :: k in pools && k in pivots && PoolValid(pools[k])
      && SortPivotRefs(pivots[k], vacancies.rows.Keys, pools[k].ids.Values)
  }

  /** Adding vacancies keeps the pivots' references valid. */
  lemma ItemsValidGrow(pools: map<ItemKind, Pool>, pivots: map<ItemKind, SortPivot>, v: Table<Vacancy>, v': Table<Vacancy>)
    requires ItemsValid(pools, pivots, v) && v.rows.Keys <= v'.rows.Keys
    ensures ItemsValid(pools, pivots, v')
  {
    forall k: ItemKind ensures k in pools && k in pivots && PoolValid(pools[k])
      && SortPivotRefs(pivots[k], v'.rows.Keys, pools[k].ids.Values)
    {
      assert k in pools && k in pivots && SortPivotRefs(pivots[k], v.rows.Keys, pools[k].ids.Values);
    }
  }

  /** applications: `vacancy_id` references an existing vacancy (cascade on delete). */
  predicate ApplicationsValid(applications: Table<Application>, vacancies: Table<Vacancy>) {
    && applications.Valid()
    && forall a :: a in applications.rows ==> applications.rows[a].vacancyId in vacancies.rows
  }

  /** links: unique url. */
  predicate LinksValid(links: Table<Link>) {
    && links.Valid()
    && forall a, b :: a in links.rows && b in links.rows && links.rows[a].url == links.rows[b].url ==> a == b
  }

  /** At most one image of a game has `is_main` set. */
  predicate AtMostOneMain(rows: map<Id, GameImage>) {
    forall a, b :: (a in rows && b in rows && rows[a].isMain && rows[b].isMain
      && rows[a].gameId == rows[b].gameId) ==> a == b
  }

  /** game_images: rows belong to games that were created, and at most one main image per game. */
  predicate ImagesValid(images: Table<GameImage>, games: Table<Game>) {
    && images.Valid()
    && (forall i :: i in images.rows ==> images.rows[i].gameId < games.next)
    && AtMostOneMain(images.rows)
  }

  /**
   * The game catalogue: games, the genre and platform pools, links, the
   * three pivots and the images.
   */
  datatype Catalog = Catalog(
    games: Table<Game>, genres: Pool, platforms: Pool, links: Table<Link>,
    gameGenres: Pivot, gamePlatforms: Pivot, gameLinks: Pivot, images: Table<GameImage>)
  {
    /** Pivot rows reference existing games and existing genres, platforms and links. */
    predicate Valid() {
      && games.Valid() && PoolValid(genres) && PoolValid(platforms) && LinksValid(links)
      && PivotRefs(gameGenres, games.rows.Keys, genres.ids.Values)
      && PivotRefs(gamePlatforms, games.rows.Keys, platforms.ids.Values)
      && PivotRefs(gameLinks, games.rows.Keys, links.rows.Keys)
      && ImagesValid(images, games)
    }
  }

  /** The database of the backend, one field per table, plus the public file disk. */
  class Database {
    var users: Table<User>
    var roles: map<Id, string>
    var tokens: Table<ApiToken>
    var departments: Table<Department>
    var vacancies: Table<Vacancy>
    var itemPools: map<ItemKind, Pool>
    var itemPivots: map<ItemKind, SortPivot>
    var applications: Table<Application>
    var proposals: Table<Proposal>
    var catalog: Catalog

    /** The schema constraints; they do not involve the reference roles. */
    ghost predicate Valid()
      reads `users, `tokens, `departments, `vacancies, `itemPools, `itemPivots, `applications, `proposals, `catalog
    {
      && UsersValid(users)
      && TokensValid(tokens, users)
      && DepartmentsValid(departments)
      && VacanciesValid(vacancies, departments)
      && ItemsValid(itemPools, itemPivots, vacancies)
      && ApplicationsValid(applications, vacancies)
      && proposals.Valid()
      && catalog.Valid()
    }

    // Each setter below commits new contents for a group of tables whose
    // constraints the caller has established; everything else stays as it is.

    method SetUsers(users: Table<User>, tokens: Table<ApiToken>)
      requires Valid() && UsersValid(users) && TokensValid(tokens, users)
      modifies `users, `tokens
      ensures Valid() && this.users == users && this.tokens == tokens
    {
      this.users, this.tokens := users, tokens;
    }

    method SetUserRows(users: Table<User>)
      requires Valid() && UsersValid(users) && TokensValid(tokens, users)
      modifies `users
      ensures Valid() && this.users == users
    {
      this.users := users;
    }

    method SetTokens(tokens: Table<ApiToken>)
      requires Valid() && TokensValid(tokens, users)
      modifies `tokens
      ensures Valid() && this.tokens == tokens
    {
      this.tokens := tokens;
    }

    method SetDepartments(departments: Table<Department>)
      requires Valid() && DepartmentsValid(departments) && VacanciesValid(vacancies, departments)
      modifies `departments
      ensures Valid() && this.departments == departments
    {
      this.departments := departments;
    }

    method SetVacancies(vacancies: Table<Vacancy>, itemPivots: map<ItemKind, SortPivot>, applications: Table<Application>)
      requires Valid() && VacanciesValid(vacancies, departments)
      requires ItemsValid(itemPools, itemPivots, vacancies) && ApplicationsValid(applications, vacancies)
      modifies `vacancies, `itemPivots, `applications
      ensures Valid() && this.vacancies == vacancies && this.itemPivots == itemPivots && this.applications == applications
    {
      this.vacancies, this.itemPivots, this.applications := vacancies, itemPivots, applications;
    }

    method SetVacancyRows(vacancies: Table<Vacancy>)
      requires Valid() && VacanciesValid(vacancies, departments)
      requires ItemsValid(itemPools, itemPivots, vacancies) && ApplicationsValid(applications, vacancies)
      modifies `vacancies
      ensures Valid() && this.vacancies == vacancies
    {
      this.vacancies := vacancies;
    }

    method SetItems(itemPools: map<ItemKind, Pool>, itemPivots: map<ItemKind, SortPivot>)
      requires Valid() && ItemsValid(itemPools, itemPivots, vacancies)
      modifies `itemPools, `itemPivots
      ensures Valid() && this.itemPools == itemPools && this.itemPivots == itemPivots
    {
      this.itemPools, this.itemPivots := itemPools, itemPivots;
    }

    method SetApplications(applications: Table<Application>)
      requires Valid() && ApplicationsValid(applications, vacancies)
      modifies `applications
      ensures Valid() && this.applications == applications
    {
      this.applications := applications;
    }

    method SetProposals(proposals: Table<Proposal>)
      requires Valid() && proposals.Valid()
      modifies `proposals
      ensures Valid() && this.proposals == proposals
    {
      this.proposals := proposals;
    }

    method SetCatalog(catalog: Catalog)
      requires Valid() && catalog.Valid()
      modifies `catalog
      ensures Valid() && this.catalog == catalog
    {
      this.catalog := catalog;
    }

    /** An empty database with the given reference roles. */
    constructor (roles: map<Id, string>)
      ensures Valid()
      ensures this.roles == roles && users.rows == map[] && vacancies.rows == map[] && catalog.games.rows == map[]
    {
      var emptyPool := Pool(map[], 0);
      this.roles := roles;
      users, tokens, departments, vacancies := EmptyTable(), EmptyTable(), EmptyTable(), EmptyTable();
      itemPools := map[Responsibility := emptyPool, Requirement := emptyPool, Condition := emptyPool];
      itemPivots := map[Responsibility := map[], Requirement := map[], Condition := map[]];
      applications, proposals := EmptyTable(), EmptyTable();
      catalog := Catalog(EmptyTable(), emptyPool, emptyPool, EmptyTable(), map[], map[], map[], EmptyTable());
      new;
      forall k: ItemKind ensures k in itemPools && k in itemPivots && itemPools[k] == emptyPool {
        match k
        case Responsibility =>
        case Requirement =>
        case Condition =>
      }
    }
  }

  /** The `public` storage disk: the paths of the stored objects, not their bytes. */
  class Disk {
    var files: set<string>

    constructor ()
      ensures files == {}
    {
      files := {};
    }
  }
}
