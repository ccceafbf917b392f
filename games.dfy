/**
 * GameController's writes: `store`, `update` and `destroy`. A game has its
 * three fillable columns, genre and platform sets drawn from name pools, a
 * set of shared links, and images on the public disk. Both `store` and
 * `update` validate inside a `try` whose `catch (\Exception)` answers 500,
 * so a rejected request is a 500 here, not a 422.
 */
module Games {
  import opened Support
  import opened Pools
  import opened Schema
  import opened GameViews
  import opened GameImages
  import opened GameLinks

  const MaxName: nat := 255

  /**
   * The request fields. `None` is an absent key; for the nullable fields an
   * inner `None` is an explicit null. `screenshots` holds the uploaded
   * files, none when the field is absent.
   */
  datatype GameInput = GameInput(
    name: Option<string>,
    aboutGame: Option<Option<string>>,
    trailerLink: Option<Option<string>>,
    mainImage: Option<Upload>,
    screenshots: seq<Upload>,
    genres: Option<seq<string>>,
    platforms: Option<seq<string>>,
    links: Option<string>,
    deleteMainImage: Option<Option<string>>,
    keepScreenshots: Option<Option<seq<Id>>>)

  /**
   * What the model takes from outside: the `url` validation rule, PHP's
   * `FILTER_VALIDATE_URL` filter, and `json_decode` of the `links` string
   * (`None` when the result is not an array).
   */
  datatype Checks = Checks(urlRule: string -> bool, validUrl: string -> bool, decode: string -> Option<seq<LinkItem>>)

  // ---- validation ----

  /** `required|string|max:255`. */
  predicate NameAccepted(name: string) {
    Required(name) && |name| <= MaxName
  }

  /** `nullable|url`: null passes, and so does a blank string, which a non-implicit rule skips. */
  predicate UrlOrNull(v: Option<Option<string>>, urlRule: string -> bool) {
    v.Some? && v.value.Some? && Required(v.value.value) ==> urlRule(v.value.value)
  }

  /** `nullable|boolean` on a form value: "0" or "1", or null or blank. */
  predicate BooleanOrNull(v: Option<Option<string>>) {
    v.Some? && v.value.Some? && Required(v.value.value) ==> v.value.value in {"0", "1"}
  }

  /** `main_image` and every `screenshots.*` pass `image|max:4096`. */
  predicate UploadsAccepted(input: GameInput) {
    && (input.mainImage.Some? ==> input.mainImage.value.acceptable)
    && forall k :: 0 <= k < |input.screenshots| ==> input.screenshots[k].acceptable
  }

  /** The rules of `store`; `required|array` rejects an empty genre or platform list. */
  predicate StoreAccepts(input: GameInput, urlRule: string -> bool) {
    && input.name.Some? && NameAccepted(input.name.value)
    && UrlOrNull(input.trailerLink, urlRule)
    && UploadsAccepted(input)
    && input.genres.Some? && input.genres.value != []
    && input.platforms.Some? && input.platforms.value != []
  }

  /** The rules of `update`: `sometimes` checks a name only when it is sent, and any list may be empty. */
  predicate UpdateAccepts(input: GameInput, urlRule: string -> bool) {
    && (input.name.Some? ==> NameAccepted(input.name.value))
    && UrlOrNull(input.trailerLink, urlRule)
    && UploadsAccepted(input)
    && BooleanOrNull(input.deleteMainImage)
  }

  /** `$request->filled('links')`: present and not blank. */
  predicate LinksFilled(links: Option<string>) {
    links.Some? && Required(links.value)
  }

  // ---- columns ----

  function Flatten<T>(v: Option<Option<T>>): Option<T> {
    if v.Some? then v.value else None
  }

  /** `Game::create($request->only(['name', 'about_game', 'trailer_link']))`: a field not sent is null. */
  function NewGame(input: GameInput): Game
    requires input.name.Some?
  {
    Game(input.name.value, Flatten(input.aboutGame), Flatten(input.trailerLink))
  }

  /** `$game->update($request->only([...]))`: exactly the fields sent are written. */
  function EditGame(g: Game, input: GameInput): Game {
    Game(
      if input.name.Some? then input.name.value else g.name,
      if input.aboutGame.Some? then input.aboutGame.value else g.aboutGame,
      if input.trailerLink.Some? then input.trailerLink.value else g.trailerLink)
  }

  /** Only name, about_game and trailer_link are fillable: an update that sends none of them leaves the row as it was. */
  lemma EditNothing(g: Game, input: GameInput)
    requires input.name.None? && input.aboutGame.None? && input.trailerLink.None?
    ensures EditGame(g, input) == g
  {
  }

  // ---- genres and platforms ----

  function Trimmed(names: seq<string>): (r: seq<string>)
    ensures |r| == |names| && forall i :: 0 <= i < |names| ==> r[i] == Trim(names[i])
  {
    seq(|names|, i requires 0 <= i < |names| => Trim(names[i]))
  }

  /**
   * `foreach ($request->genres as $genreName)`: `firstOrCreate` each trimmed
   * name and collect the ids.
   */
  method ResolveNames(pool: Pool, names: seq<string>) returns (pool': Pool, ids: seq<Id>)
    ensures (pool', ids) == Resolve(pool, Trimmed(names))
  {
    pool', ids := pool, [];
    for k := 0 to |names|
      invariant Resolve(pool, Trimmed(names)[..k]) == (pool', ids)
    {
      PrefixSnoc(Trimmed(names), k);
      ResolveSnoc(pool, Trimmed(names)[..k], Trim(names[k]));
      var step := FirstOrCreate(pool', Trim(names[k]));
      pool', ids := step.0, ids + [step.1];
    }
    assert Trimmed(names)[..|names|] == Trimmed(names);
  }

  /** `sync($ids)`: the game's set becomes exactly the ids, duplicates collapsed; other games keep theirs. */
  function SyncSet(pivot: Pivot, game: Id, ids: seq<Id>): (r: Pivot)
    ensures forall g :: g in r <==> g in pivot || g == game
    ensures forall g :: g in pivot && g != game ==> r[g] == pivot[g]
    ensures forall x :: x in r[game] <==> x in ids
  {
    pivot[game := set x | x in ids]
  }

  /** The find-or-create loop over the trimmed names followed by `sync`. */
  function SyncNames(pool: Pool, pivot: Pivot, game: Id, names: seq<string>): (r: (Pool, Pivot))
    ensures Extends(pool, r.0)
    ensures PoolValid(pool) ==> PoolValid(r.0)
    ensures forall n :: n in r.0.ids <==> n in pool.ids || n in Trimmed(names)
    ensures forall g :: g in r.1 <==> g in pivot || g == game
    ensures forall g :: g in pivot && g != game ==> r.1[g] == pivot[g]
  {
    var res := Resolve(pool, Trimmed(names));
    (res.0, SyncSet(pivot, game, res.1))
  }

  /** The game's set is exactly the pool ids of the trimmed names: each trimmed name's row is in it and nothing else is. */
  predicate SyncedTo(pool: Pool, pivot: Pivot, game: Id, names: seq<string>) {
    && (forall i :: 0 <= i < |names| ==> Trim(names[i]) in pool.ids && pool.ids[Trim(names[i])] in Linked(pivot, game))
    && (forall x :: x in Linked(pivot, game) ==>
          exists i :: 0 <= i < |names| && Trim(names[i]) in pool.ids && pool.ids[Trim(names[i])] == x)
  }

  /** After the sync the game's set is exactly the pool ids of the trimmed names. */
  lemma SyncedNames(pool: Pool, pivot: Pivot, game: Id, names: seq<string>)
    ensures var r := SyncNames(pool, pivot, game, names);
      SyncedTo(r.0, r.1, game, names)
  {
    var keys := Trimmed(names);
    var res := Resolve(pool, keys);
    forall x | x in SyncNames(pool, pivot, game, names).1[game]
      ensures exists i :: 0 <= i < |names| && Trim(names[i]) in res.0.ids && res.0.ids[Trim(names[i])] == x
    {
      var i :| 0 <= i < |res.1| && res.1[i] == x;
      assert keys[i] == Trim(names[i]);
    }
  }

  /** Submitting the same names again creates no pool row and leaves the game's set as it is. */
  lemma SyncNamesIdempotent(pool: Pool, pivot: Pivot, game: Id, names: seq<string>)
    ensures var r := SyncNames(pool, pivot, game, names);
      SyncNames(r.0, r.1, game, names) == r
  {
    var res := Resolve(pool, Trimmed(names));
    ResolveIdempotent(pool, Trimmed(names));
    var linked := set x | x in res.1;
    assert SyncNames(pool, pivot, game, names) == (res.0, pivot[game := linked]);
    assert SyncNames(res.0, pivot[game := linked], game, names) == (res.0, pivot[game := linked][game := linked]);
    UpdateSame(pivot, game, linked);
  }

  /** The sync keeps the pivot's references inside the games and the pool. */
  lemma SyncNamesRefs(pool: Pool, pivot: Pivot, game: Id, names: seq<string>, games: set<Id>)
    requires PoolValid(pool) && PivotRefs(pivot, games, pool.ids.Values) && game in games
    ensures var r := SyncNames(pool, pivot, game, names);
      PoolValid(r.0) && PivotRefs(r.1, games, r.0.ids.Values)
  {
    var keys := Trimmed(names);
    var res := Resolve(pool, keys);
    var r := SyncNames(pool, pivot, game, names);
    assert r.0 == res.0 && r.1 == SyncSet(pivot, game, res.1);
    forall g | g in r.1 ensures g in games && r.1[g] <= res.0.ids.Values {
      if g == game {
        forall x | x in r.1[g] ensures x in res.0.ids.Values {
          var i :| 0 <= i < |res.1| && res.1[i] == x;
          assert keys[i] in res.0.ids && res.0.ids[keys[i]] == x;
        }
      } else {
        forall x | x in r.1[g] ensures x in res.0.ids.Values {
          assert x in pool.ids.Values;
          var k :| k in pool.ids && pool.ids[k] == x;
          assert res.0.ids[k] == x;
        }
      }
    }
  }

  /**
   * The genre block, then the platform block, each run only when its list
   * was sent (`filled` holds for any array, an empty one included).
   */
  function SyncLists(cat: Catalog, game: Id, genres: Option<seq<string>>, platforms: Option<seq<string>>): (r: Catalog)
    ensures r == cat.(genres := r.genres, gameGenres := r.gameGenres, platforms := r.platforms, gamePlatforms := r.gamePlatforms)
    ensures genres.None? ==> r.genres == cat.genres && r.gameGenres == cat.gameGenres
    ensures genres.Some? ==> (r.genres, r.gameGenres) == SyncNames(cat.genres, cat.gameGenres, game, genres.value)
    ensures platforms.None? ==> r.platforms == cat.platforms && r.gamePlatforms == cat.gamePlatforms
    ensures platforms.Some? ==> (r.platforms, r.gamePlatforms) == SyncNames(cat.platforms, cat.gamePlatforms, game, platforms.value)
  {
    var g := if genres.None? then (cat.genres, cat.gameGenres) else SyncNames(cat.genres, cat.gameGenres, game, genres.value);
    var p := if platforms.None? then (cat.platforms, cat.gamePlatforms)
      else SyncNames(cat.platforms, cat.gamePlatforms, game, platforms.value);
    cat.(genres := g.0, gameGenres := g.1, platforms := p.0, gamePlatforms := p.1)
  }

  /** Syncing the lists of an existing game keeps the catalogue's constraints. */
  lemma SyncListsValid(cat: Catalog, game: Id, genres: Option<seq<string>>, platforms: Option<seq<string>>)
    requires cat.Valid() && game in cat.games.rows
    ensures SyncLists(cat, game, genres, platforms).Valid()
  {
    if genres.Some? {
      SyncNamesRefs(cat.genres, cat.gameGenres, game, genres.value, cat.games.rows.Keys);
    }
    if platforms.Some? {
      SyncNamesRefs(cat.platforms, cat.gamePlatforms, game, platforms.value, cat.games.rows.Keys);
    }
  }

  /** The two list blocks as `store` and `update` run them, with the loop methods. */
  method SyncListsLoop(cat: Catalog, game: Id, genres: Option<seq<string>>, platforms: Option<seq<string>>)
    returns (cat': Catalog)
    requires cat.Valid() && game in cat.games.rows
    ensures cat' == SyncLists(cat, game, genres, platforms)
  {
    cat' := cat;
    if genres.Some? {
      var pool, ids := ResolveNames(cat.genres, genres.value);
      cat' := cat'.(genres := pool, gameGenres := SyncSet(cat.gameGenres, game, ids));
    }
    if platforms.Some? {
      var pool, ids := ResolveNames(cat.platforms, platforms.value);
      cat' := cat'.(platforms := pool, gamePlatforms := SyncSet(cat.gamePlatforms, game, ids));
    }
  }

  // ---- the stages of store and update ----

  /** `Game::create(...)`: the catalogue with the new game and its id. */
  function Created(cat: Catalog, input: GameInput): (Catalog, Id)
    requires input.name.Some?
  {
    var ins := cat.games.Insert(NewGame(input));
    (cat.(games := ins.0), ins.1)
  }

  /** The new game exists, has no image yet, and the constraints still hold. */
  lemma CreatedValid(cat: Catalog, input: GameInput)
    requires cat.Valid() && input.name.Some?
    ensures var c := Created(cat, input);
      && c.0.Valid() && c.1 in c.0.games.rows && c.1 == cat.games.next
      && forall i :: i in c.0.images.rows ==> c.0.images.rows[i].gameId != c.1
  {
  }

  /** Replace the catalogue's images, and the stored paths, by the result of an image block. */
  function WithImages(cat: Catalog, images: (Table<GameImage>, set<string>)): (Catalog, set<string>) {
    (cat.(images := images.0), images.1)
  }

  /** The `links` block of `store`: find-or-create each accepted item, then sync; anything but an array syncs none. */
  function StoreLinkStage(cat: Catalog, game: Id, links: Option<string>, checks: Checks): (r: Catalog)
    requires LinksValid(cat.links)
  {
    if !LinksFilled(links) then cat
    else
      var res := StoreLinks(cat.links, checks.decode(links.value).GetOr([]), checks.validUrl);
      cat.(links := res.0, gameLinks := SyncSet(cat.gameLinks, game, res.1))
  }

  /** Linking an existing game to links that exist keeps the constraints. */
  lemma SyncLinksValid(cat: Catalog, game: Id, links: Table<Link>, ids: seq<Id>)
    requires cat.Valid() && game in cat.games.rows && LinksValid(links) && cat.links.rows.Keys <= links.rows.Keys
    requires forall j :: 0 <= j < |ids| ==> ids[j] in links.rows
    ensures cat.(links := links, gameLinks := SyncSet(cat.gameLinks, game, ids)).Valid()
    ensures cat.(links := links).Valid()
  {
  }

  /**
   * `store`. A request the rules reject is a 500, since validation runs
   * inside the `try`, and changes nothing. Otherwise the game is created,
   * then its genres and platforms, its images and its links, in that order;
   * the result is the new game's id.
   */
  function StoreOutcome(cat: Catalog, files: set<string>, input: GameInput, checks: Checks)
    : (Result<Id>, Catalog, set<string>)
    requires cat.Valid()
  {
    if !StoreAccepts(input, checks.urlRule) then (Err(Internal), cat, files)
    else
      var c := Created(cat, input);
      var lists := SyncLists(c.0, c.1, input.genres, input.platforms);
      var im := WithImages(lists, StoreImages(lists.images, files, c.1, input.mainImage, input.screenshots));
      (Ok(c.1), StoreLinkStage(im.0, c.1, input.links, checks), im.1)
  }

  /** The decoded `links` items; anything but an array is no item. */
  function LinkItems(links: string, checks: Checks): seq<LinkItem> {
    checks.decode(links).GetOr([])
  }

  /** `store` keeps the catalogue's constraints, whatever the request. */
  lemma StoreValid(cat: Catalog, files: set<string>, input: GameInput, checks: Checks)
    requires cat.Valid()
    ensures StoreOutcome(cat, files, input, checks).1.Valid()
  {
    if StoreAccepts(input, checks.urlRule) {
      var c := Created(cat, input);
      CreatedValid(cat, input);
      var lists := SyncLists(c.0, c.1, input.genres, input.platforms);
      SyncListsValid(c.0, c.1, input.genres, input.platforms);
      StoreImagesMain(lists.images, lists.games, files, c.1, input.mainImage, input.screenshots);
      var im := WithImages(lists, StoreImages(lists.images, files, c.1, input.mainImage, input.screenshots));
      assert im.0.Valid();
      if LinksFilled(input.links) {
        var res := StoreLinks(im.0.links, LinkItems(input.links.value, checks), checks.validUrl);
        SyncLinksValid(im.0, c.1, res.0, res.1);
      }
    }
  }

  /** A request the rules of `store` reject is a 500 and changes nothing; an accepted one answers the new game's id. */
  lemma StoreAnswer(cat: Catalog, files: set<string>, input: GameInput, checks: Checks)
    requires cat.Valid()
    ensures var r := StoreOutcome(cat, files, input, checks);
      && (r.0.Err? <==> !StoreAccepts(input, checks.urlRule))
      && (r.0.Err? ==> r.0.error == Internal && r.1 == cat && r.2 == files)
      && (r.0.Ok? ==> r.0.value == cat.games.next && r.0.value !in cat.games.rows)
  {
  }

  /**
   * An accepted `store` adds exactly one game, with the three fillable
   * fields; its genres and platforms are exactly the pool rows of the
   * trimmed names, and the pools only grow.
   */
  lemma StoreLists(cat: Catalog, files: set<string>, input: GameInput, checks: Checks)
    requires cat.Valid() && StoreAccepts(input, checks.urlRule)
    ensures var r := StoreOutcome(cat, files, input, checks);
      && r.1.games.rows == cat.games.rows[cat.games.next := NewGame(input)]
      && SyncedTo(r.1.genres, r.1.gameGenres, cat.games.next, input.genres.value)
      && SyncedTo(r.1.platforms, r.1.gamePlatforms, cat.games.next, input.platforms.value)
      && Extends(cat.genres, r.1.genres) && Extends(cat.platforms, r.1.platforms)
  {
    var c := Created(cat, input);
    var lists := SyncLists(c.0, c.1, input.genres, input.platforms);
    var im := WithImages(lists, StoreImages(lists.images, files, c.1, input.mainImage, input.screenshots));
    var r := StoreOutcome(cat, files, input, checks);
    assert r.1 == StoreLinkStage(im.0, c.1, input.links, checks);
    assert r.1.games == lists.games && r.1.genres == lists.genres && r.1.gameGenres == lists.gameGenres
      && r.1.platforms == lists.platforms && r.1.gamePlatforms == lists.gamePlatforms;
    var g := SyncNames(c.0.genres, c.0.gameGenres, c.1, input.genres.value);
    SyncedNames(c.0.genres, c.0.gameGenres, c.1, input.genres.value);
    assert lists.genres == g.0 && lists.gameGenres == g.1;
    var p := SyncNames(c.0.platforms, c.0.gamePlatforms, c.1, input.platforms.value);
    SyncedNames(c.0.platforms, c.0.gamePlatforms, c.1, input.platforms.value);
    assert lists.platforms == p.0 && lists.gamePlatforms == p.1;
  }

  /** The images of an accepted `store` are those of the image blocks run for the new game on the images before. */
  lemma StoreImagesOutcome(cat: Catalog, files: set<string>, input: GameInput, checks: Checks)
    requires cat.Valid() && StoreAccepts(input, checks.urlRule)
    ensures var r := StoreOutcome(cat, files, input, checks);
      (r.1.images, r.2) == StoreImages(cat.images, files, cat.games.next, input.mainImage, input.screenshots)
    ensures forall i :: i in cat.images.rows ==> cat.images.rows[i].gameId != cat.games.next
  {
  }

  /**
   * The `links` block of `store` for a game without links: earlier links
   * keep their url and label, and with `links` filled the game's links are
   * exactly the links whose url is an accepted item's url; otherwise it has
   * none.
   */
  lemma StoreLinkStageEffect(cat: Catalog, game: Id, links: Option<string>, checks: Checks)
    requires LinksValid(cat.links) && game !in cat.gameLinks
    ensures var r := StoreLinkStage(cat, game, links, checks);
      && (forall i :: i in cat.links.rows ==> i in r.links.rows && r.links.rows[i] == cat.links.rows[i])
      && (!LinksFilled(links) ==> Linked(r.gameLinks, game) == {})
      && (LinksFilled(links) ==>
            var urls := AcceptedUrls(LinkItems(links.value, checks), checks.validUrl);
            && (forall x :: x in Linked(r.gameLinks, game) ==> x in r.links.rows && r.links.rows[x].url in urls)
            && (forall j :: 0 <= j < |urls| ==>
                  exists x :: x in Linked(r.gameLinks, game) && r.links.rows[x].url == urls[j]))
  {
    if LinksFilled(links) {
      var items := LinkItems(links.value, checks);
      var res := StoreLinks(cat.links, items, checks.validUrl);
      var urls := AcceptedUrls(items, checks.validUrl);
      var linked := Linked(SyncSet(cat.gameLinks, game, res.1), game);
      var r := StoreLinkStage(cat, game, links, checks);
      assert r.links == res.0 && Linked(r.gameLinks, game) == linked;
      forall x | x in linked ensures res.0.rows[x].url in urls {
        var j :| 0 <= j < |res.1| && res.1[j] == x;
      }
      forall j | 0 <= j < |urls| ensures exists x :: x in Linked(r.gameLinks, game) && r.links.rows[x].url == urls[j] {
        assert |res.1| == |urls|;
        assert res.1[j] in linked && res.0.rows[res.1[j]].url == urls[j];
      }
      assert urls == AcceptedUrls(LinkItems(links.value, checks), checks.validUrl);
      assert forall j :: 0 <= j < |urls| ==> exists x :: x in Linked(r.gameLinks, game) && r.links.rows[x].url == urls[j];
    }
  }

  /** The links of an accepted `store` are those of the `links` block run for the new game, which has no links before it. */
  lemma StoreLinksOutcome(cat: Catalog, files: set<string>, input: GameInput, checks: Checks)
    requires cat.Valid() && StoreAccepts(input, checks.urlRule)
    ensures var r := StoreOutcome(cat, files, input, checks);
      var before := cat.(games := cat.games.Insert(NewGame(input)).0);
      && cat.games.next !in cat.gameLinks
      && (r.1.links, r.1.gameLinks) == (StoreLinkStage(before, cat.games.next, input.links, checks).links,
                                       StoreLinkStage(before, cat.games.next, input.links, checks).gameLinks)
  {
  }

  /**
   * `$request->input('keep_screenshots', [])` when the key is present: the
   * sent list, and no list at all (so every screenshot goes) for a null.
   */
  function KeepList(keep: Option<Option<seq<Id>>>): (r: Option<seq<Id>>)
    ensures r.Some? <==> keep.Some?
    ensures keep.Some? && keep.value.None? ==> r == Some([])
  {
    if keep.None? then None else Some(keep.value.GetOr([]))
  }

  /**
   * The `links` block of `update`. A link update that would give two links
   * the same url violates the unique index: the exception answers 500, and
   * the writes made before it stay.
   */
  function UpdateLinkStage(cat: Catalog, id: Id, links: Option<string>, checks: Checks): (Result<Id>, Catalog)
    requires LinksValid(cat.links)
  {
    if !LinksFilled(links) then (Ok(id), cat)
    else
      var fold := UpdateLinks(cat.links, LinkItems(links.value, checks), checks.validUrl);
      if fold.failed then (Err(Internal), cat.(links := fold.links))
      else (Ok(id), cat.(links := fold.links, gameLinks := SyncSet(cat.gameLinks, id, fold.ids)))
  }

  /** The field, list and image blocks of `update`, in that order. */
  function Edited(cat: Catalog, files: set<string>, id: Id, input: GameInput): (r: (Catalog, set<string>))
    requires cat.Valid() && id in cat.games.rows
    ensures r.0 == SyncLists(cat.(games := cat.games.Put(id, EditGame(cat.games.rows[id], input))),
      id, input.genres, input.platforms).(images := r.0.images)
  {
    var edited := cat.(games := cat.games.Put(id, EditGame(cat.games.rows[id], input)));
    var lists := SyncLists(edited, id, input.genres, input.platforms);
    WithImages(lists, UpdateImages(lists.images, files, id,
      input.deleteMainImage.Some?, input.mainImage, KeepList(input.keepScreenshots), input.screenshots))
  }

  /** The field, list and image blocks keep the catalogue's constraints. */
  lemma EditedValid(cat: Catalog, files: set<string>, id: Id, input: GameInput)
    requires cat.Valid() && id in cat.games.rows
    ensures Edited(cat, files, id, input).0.Valid()
  {
    var edited := cat.(games := cat.games.Put(id, EditGame(cat.games.rows[id], input)));
    assert edited.Valid();
    var lists := SyncLists(edited, id, input.genres, input.platforms);
    SyncListsValid(edited, id, input.genres, input.platforms);
    UpdateImagesValid(lists.images, lists.games, files, id,
      input.deleteMainImage.Some?, input.mainImage, KeepList(input.keepScreenshots), input.screenshots);
  }

  /**
   * `update`. An unknown id is a 404 (`findOrFail` precedes the `try`); a
   * request the rules reject is a 500; neither changes anything. Otherwise
   * the sent fields are written, the sent lists synced, the image blocks
   * run, and, with `links` filled, the links resolved and synced.
   */
  function UpdateOutcome(cat: Catalog, files: set<string>, id: Id, input: GameInput, checks: Checks)
    : (Result<Id>, Catalog, set<string>)
    requires cat.Valid()
  {
    if id !in cat.games.rows then (Err(NotFound(NoQueryResults)), cat, files)
    else if !UpdateAccepts(input, checks.urlRule) then (Err(Internal), cat, files)
    else
      var im := Edited(cat, files, id, input);
      var l := UpdateLinkStage(im.0, id, input.links, checks);
      (l.0, l.1, im.1)
  }

  /** `update` keeps the catalogue's constraints, whatever the request. */
  lemma UpdateValid(cat: Catalog, files: set<string>, id: Id, input: GameInput, checks: Checks)
    requires cat.Valid()
    ensures UpdateOutcome(cat, files, id, input, checks).1.Valid()
  {
    if id in cat.games.rows && UpdateAccepts(input, checks.urlRule) {
      var im := Edited(cat, files, id, input);
      EditedValid(cat, files, id, input);
      if LinksFilled(input.links) {
        var fold := UpdateLinks(im.0.links, LinkItems(input.links.value, checks), checks.validUrl);
        SyncLinksValid(im.0, id, fold.links, fold.ids);
      }
    }
  }

  /**
   * The answer of `update`: a 404 for an unknown id and a 500 for a rejected
   * request, both changing nothing; otherwise the game's id, unless the link
   * block failed.
   */
  lemma UpdateAnswer(cat: Catalog, files: set<string>, id: Id, input: GameInput, checks: Checks)
    requires cat.Valid()
    ensures var r := UpdateOutcome(cat, files, id, input, checks);
      && (id !in cat.games.rows ==> r == (Err(NotFound(NoQueryResults)), cat, files))
      && (id in cat.games.rows && !UpdateAccepts(input, checks.urlRule) ==> r == (Err(Internal), cat, files))
      && (r.0.Ok? ==> r.0.value == id)
      && (r.0.Ok? <==>
            && id in cat.games.rows && UpdateAccepts(input, checks.urlRule)
            && (LinksFilled(input.links) ==>
              !UpdateLinks(cat.links, LinkItems(input.links.value, checks), checks.validUrl).failed))
  {
  }

  /** The catalogue after an accepted `update` is that of its field, list and image blocks, but for the links. */
  lemma UpdateStages(cat: Catalog, files: set<string>, id: Id, input: GameInput, checks: Checks)
    requires cat.Valid() && id in cat.games.rows && UpdateAccepts(input, checks.urlRule)
    ensures var r := UpdateOutcome(cat, files, id, input, checks);
      var im := Edited(cat, files, id, input);
      r.1 == im.0.(links := r.1.links, gameLinks := r.1.gameLinks) && r.2 == im.1
  {
    var im := Edited(cat, files, id, input);
    var l := UpdateLinkStage(im.0, id, input.links, checks);
    assert UpdateOutcome(cat, files, id, input, checks) == (l.0, l.1, im.1);
    if LinksFilled(input.links) {
      var fold := UpdateLinks(im.0.links, LinkItems(input.links.value, checks), checks.validUrl);
      if fold.failed {
        assert l.1 == im.0.(links := fold.links);
      } else {
        assert l.1 == im.0.(links := fold.links, gameLinks := SyncSet(im.0.gameLinks, id, fold.ids));
      }
    }
  }

  /**
   * An accepted `update` writes exactly the sent fillable fields of that
   * game, and a list that was not sent leaves the game's set and the pool as
   * they were.
   */
  lemma UpdateFields(cat: Catalog, files: set<string>, id: Id, input: GameInput, checks: Checks)
    requires cat.Valid() && id in cat.games.rows && UpdateAccepts(input, checks.urlRule)
    ensures var r := UpdateOutcome(cat, files, id, input, checks);
      && r.1.games.rows == cat.games.rows[id := EditGame(cat.games.rows[id], input)]
      && (input.genres.None? ==> r.1.genres == cat.genres && r.1.gameGenres == cat.gameGenres)
      && (input.platforms.None? ==> r.1.platforms == cat.platforms && r.1.gamePlatforms == cat.gamePlatforms)
  {
    UpdateStages(cat, files, id, input, checks);
  }

  /** A list sent to `update` is synced to exactly the trimmed names. */
  lemma UpdateLists(cat: Catalog, files: set<string>, id: Id, input: GameInput, checks: Checks)
    requires cat.Valid() && id in cat.games.rows && UpdateAccepts(input, checks.urlRule)
    ensures var r := UpdateOutcome(cat, files, id, input, checks);
      && (input.genres.Some? ==> SyncedTo(r.1.genres, r.1.gameGenres, id, input.genres.value))
      && (input.platforms.Some? ==> SyncedTo(r.1.platforms, r.1.gamePlatforms, id, input.platforms.value))
  {
    UpdateStages(cat, files, id, input, checks);
    if input.genres.Some? {
      SyncedNames(cat.genres, cat.gameGenres, id, input.genres.value);
    }
    if input.platforms.Some? {
      SyncedNames(cat.platforms, cat.gamePlatforms, id, input.platforms.value);
    }
  }

  /** The images of an accepted `update` are those of the image blocks run on the images before. */
  lemma UpdateImagesOutcome(cat: Catalog, files: set<string>, id: Id, input: GameInput, checks: Checks)
    requires cat.Valid() && id in cat.games.rows && UpdateAccepts(input, checks.urlRule)
    ensures var r := UpdateOutcome(cat, files, id, input, checks);
      (r.1.images, r.2) == UpdateImages(cat.images, files, id,
        input.deleteMainImage.Some?, input.mainImage, KeepList(input.keepScreenshots), input.screenshots)
  {
    UpdateStages(cat, files, id, input, checks);
  }

  /**
   * The links of an accepted `update`: without `links` filled they stay as
   * they were; otherwise the links are those the resolution loop leaves, and
   * the game's link set becomes exactly the resolved ids unless the loop
   * failed, in which case it stays as it was.
   */
  lemma UpdateLinksOutcome(cat: Catalog, files: set<string>, id: Id, input: GameInput, checks: Checks)
    requires cat.Valid() && id in cat.games.rows && UpdateAccepts(input, checks.urlRule)
    ensures var r := UpdateOutcome(cat, files, id, input, checks);
      && (!LinksFilled(input.links) ==> r.1.links == cat.links && r.1.gameLinks == cat.gameLinks)
      && (LinksFilled(input.links) ==>
            var fold := UpdateLinks(cat.links, LinkItems(input.links.value, checks), checks.validUrl);
            && r.1.links == fold.links
            && (fold.failed ==> r.1.gameLinks == cat.gameLinks)
            && (!fold.failed ==> forall x :: x in Linked(r.1.gameLinks, id) <==> x in fold.ids)
            && (forall g :: g in cat.gameLinks && g != id ==> g in r.1.gameLinks && r.1.gameLinks[g] == cat.gameLinks[g]))
  {
  }

  /**
   * `$game->delete()`: the game row goes, and with it, by the cascading
   * foreign keys of the pivot tables, its genre, platform and link rows.
   * Pools, links and images stay.
   */
  function WithoutGame(cat: Catalog, id: Id): (r: Catalog)
    ensures r.games.rows.Keys == cat.games.rows.Keys - {id} && r.games.next == cat.games.next
    ensures forall g :: g in r.games.rows ==> r.games.rows[g] == cat.games.rows[g]
    ensures Linked(r.gameGenres, id) == {} && Linked(r.gamePlatforms, id) == {} && Linked(r.gameLinks, id) == {}
    ensures forall g :: g != id ==> Linked(r.gameGenres, g) == Linked(cat.gameGenres, g)
    ensures forall g :: g != id ==> Linked(r.gamePlatforms, g) == Linked(cat.gamePlatforms, g)
    ensures forall g :: g != id ==> Linked(r.gameLinks, g) == Linked(cat.gameLinks, g)
    ensures r.genres == cat.genres && r.platforms == cat.platforms && r.links == cat.links && r.images == cat.images
  {
    cat.(games := cat.games.(rows := cat.games.rows - {id}),
      gameGenres := cat.gameGenres - {id}, gamePlatforms := cat.gamePlatforms - {id}, gameLinks := cat.gameLinks - {id})
  }

  /** Deleting a game keeps the catalogue's constraints: no pivot row is left pointing at it. */
  lemma DestroyValid(cat: Catalog, id: Id)
    requires cat.Valid()
    ensures WithoutGame(cat, id).Valid()
  {
  }

  // ---- the controller actions on the database ----

  /** The blocks of `store`, run with the loop methods. */
  method StoreSteps(cat: Catalog, files: set<string>, input: GameInput, checks: Checks)
    returns (r: Result<Id>, cat': Catalog, files': set<string>)
    requires cat.Valid()
    ensures (r, cat', files') == StoreOutcome(cat, files, input, checks)
  {
    if !StoreAccepts(input, checks.urlRule) {
      return Err(Internal), cat, files;
    }
    var ins := cat.games.Insert(NewGame(input));
    var game := ins.1;
    CreatedValid(cat, input);
    cat' := SyncListsLoop(cat.(games := ins.0), game, input.genres, input.platforms);
    var images;
    images, files' := StoreImageBlocks(cat'.images, files, game, input.mainImage, input.screenshots);
    cat' := cat'.(images := images);
    if LinksFilled(input.links) {
      var links, ids := StoreLinkLoop(cat'.links, LinkItems(input.links.value, checks), checks.validUrl);
      cat' := cat'.(links := links, gameLinks := SyncSet(cat'.gameLinks, game, ids));
    }
    r := Ok(game);
  }

  /** `store` run on the database and the disk. */
  method Store(db: Database, disk: Disk, input: GameInput, checks: Checks) returns (r: Result<Id>)
    requires db.Valid()
    modifies db`catalog, disk`files
    ensures db.Valid()
    ensures (r, db.catalog, disk.files) == StoreOutcome(old(db.catalog), old(disk.files), input, checks)
  {
    var cat, files;
    r, cat, files := StoreSteps(db.catalog, disk.files, input, checks);
    StoreValid(db.catalog, disk.files, input, checks);
    db.SetCatalog(cat);
    disk.files := files;
  }

  /** The blocks of `update`, run with the loop methods. */
  method UpdateSteps(cat: Catalog, files: set<string>, id: Id, input: GameInput, checks: Checks)
    returns (r: Result<Id>, cat': Catalog, files': set<string>)
    requires cat.Valid()
    ensures (r, cat', files') == UpdateOutcome(cat, files, id, input, checks)
  {
    if id !in cat.games.rows {
      return Err(NotFound(NoQueryResults)), cat, files;
    }
    if !UpdateAccepts(input, checks.urlRule) {
      return Err(Internal), cat, files;
    }
    var edited := cat.(games := cat.games.Put(id, EditGame(cat.games.rows[id], input)));
    cat' := SyncListsLoop(edited, id, input.genres, input.platforms);
    var images;
    images, files' := UpdateImageBlocks(cat'.images, files, id,
      input.deleteMainImage.Some?, input.mainImage, KeepList(input.keepScreenshots), input.screenshots);
    cat' := cat'.(images := images);
    assert (cat', files') == Edited(cat, files, id, input);
    EditedValid(cat, files, id, input);
    ghost var before := cat';
    r := Ok(id);
    if LinksFilled(input.links) {
      var links, ids, failed := UpdateLinkLoop(cat'.links, LinkItems(input.links.value, checks), checks.validUrl);
      if failed {
        cat', r := cat'.(links := links), Err(Internal);
      } else {
        cat' := cat'.(links := links, gameLinks := SyncSet(cat'.gameLinks, id, ids));
      }
    }
    assert (r, cat') == UpdateLinkStage(before, id, input.links, checks);
  }

  /** `update` run on the database and the disk. */
  method Update(db: Database, disk: Disk, id: Id, input: GameInput, checks: Checks) returns (r: Result<Id>)
    requires db.Valid()
    modifies db`catalog, disk`files
    ensures db.Valid()
    ensures (r, db.catalog, disk.files) == UpdateOutcome(old(db.catalog), old(disk.files), id, input, checks)
  {
    var cat, files;
    r, cat, files := UpdateSteps(db.catalog, disk.files, id, input, checks);
    UpdateValid(db.catalog, disk.files, id, input, checks);
    db.SetCatalog(cat);
    disk.files := files;
  }

  /** `destroy`: a 404 for an unknown id (`findOrFail`), otherwise the game is deleted. */
  method Destroy(db: Database, id: Id) returns (r: Result<()>)
    requires db.Valid()
    modifies db`catalog
    ensures db.Valid()
    ensures id !in old(db.catalog.games.rows) ==> r == Err(NotFound(NoQueryResults)) && db.catalog == old(db.catalog)
    ensures id in old(db.catalog.games.rows) ==> r == Ok(()) && db.catalog == WithoutGame(old(db.catalog), id)
  {
    if id !in db.catalog.games.rows {
      return Err(NotFound(NoQueryResults));
    }
    DestroyValid(db.catalog, id);
    db.SetCatalog(WithoutGame(db.catalog, id));
    r := Ok(());
  }
}
