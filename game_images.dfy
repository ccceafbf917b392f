/**
 * The image writes of GameController: a main image stored under
 * `games/main/` with `is_main` and sort order 0, screenshots stored under
 * `games/screenshots/` with increasing sort orders, and deletions that
 * remove both the row and the stored object. Each operation works on the
 * game_images table and the set of stored paths together.
 */
module GameImages {
  import opened Support
  import opened Schema
  import opened GameViews

  const MainDir: string := "games/main/"
  const ScreenshotDir: string := "games/screenshots/"

  /** The row created for upload `i - next`: a screenshot with sort order `base + (i - next) + 1`. */
  function ScreenshotRow(next: Id, game: Id, uploads: seq<Upload>, base: int, i: Id): GameImage
    requires next <= i < next + |uploads|
  {
    GameImage(game, ScreenshotDir + uploads[i - next].hashName, false, base + (i - next) + 1)
  }

  /**
   * The rows created for uploaded screenshots, in upload order: upload `k`
   * gets id `next + k` and sort order `base + k + 1`.
   */
  function NewScreenshots(next: Id, game: Id, uploads: seq<Upload>, base: int): (r: map<Id, GameImage>)
    ensures forall i :: i in r <==> next <= i < next + |uploads|
    ensures forall i :: i in r ==> r[i] == ScreenshotRow(next, game, uploads, base, i)
  {
    map i: Id | next <= i < next + |uploads| :: ScreenshotRow(next, game, uploads, base, i)
  }

  /** The paths the uploads are stored under in `dir`. */
  function UploadPaths(dir: string, uploads: seq<Upload>): (r: set<string>)
    ensures forall k :: 0 <= k < |uploads| ==> dir + uploads[k].hashName in r
    ensures forall p :: p in r ==> exists k :: 0 <= k < |uploads| && p == dir + uploads[k].hashName
  {
    set k | 0 <= k < |uploads| :: dir + uploads[k].hashName
  }

  /** One more upload is one more row, with the next id. */
  lemma NewScreenshotsStep(next: Id, game: Id, uploads: seq<Upload>, base: int, k: nat)
    requires k < |uploads|
    ensures NewScreenshots(next, game, uploads[..k + 1], base)
      == NewScreenshots(next, game, uploads[..k], base)[next + k := GameImage(game, ScreenshotDir + uploads[k].hashName, false, base + k + 1)]
  {
    var a := NewScreenshots(next, game, uploads[..k + 1], base);
    var b := NewScreenshots(next, game, uploads[..k], base)[next + k := GameImage(game, ScreenshotDir + uploads[k].hashName, false, base + k + 1)];
    forall i | i in a ensures i in b && a[i] == b[i] {
      if i < next + k {
        assert uploads[..k + 1][i - next] == uploads[..k][i - next];
      }
    }
    assert a.Keys == b.Keys;
  }

  /** Storing one more upload stores one more path. */
  lemma UploadPathsStep(dir: string, uploads: seq<Upload>, k: nat)
    requires k < |uploads|
    ensures UploadPaths(dir, uploads[..k + 1]) == UploadPaths(dir, uploads[..k]) + {dir + uploads[k].hashName}
  {
    var longer, prefix := uploads[..k + 1], uploads[..k];
    assert longer[k] == uploads[k];
    forall q | q in UploadPaths(dir, longer) ensures q in UploadPaths(dir, prefix) + {dir + uploads[k].hashName} {
      var j :| 0 <= j < |longer| && q == dir + longer[j].hashName;
      if j < k { assert q == dir + prefix[j].hashName; }
    }
    forall j | 0 <= j < k ensures dir + prefix[j].hashName in UploadPaths(dir, longer) {
      assert prefix[j] == longer[j];
    }
  }

  lemma UnionUpdate<K, V>(a: map<K, V>, b: map<K, V>, x: K, v: V)
    ensures a + b[x := v] == (a + b)[x := v]
  {
  }

  /** What `AppendScreenshots` computes. */
  function Append(images: Table<GameImage>, files: set<string>, game: Id, uploads: seq<Upload>, base: int)
    : (Table<GameImage>, set<string>)
  {
    (Table(images.rows + NewScreenshots(images.next, game, uploads, base), images.next + |uploads|),
     files + UploadPaths(ScreenshotDir, uploads))
  }

  /** Appending no upload changes nothing. */
  lemma AppendNothing(images: Table<GameImage>, files: set<string>, game: Id, base: int)
    ensures Append(images, files, game, [], base) == (images, files)
  {
    var none: seq<Upload> := [];
    assert NewScreenshots(images.next, game, none, base) == map[];
    assert UploadPaths(ScreenshotDir, none) == {};
    assert Append(images, files, game, none, base).0 == Table(images.rows, images.next) == images;
    assert Append(images, files, game, none, base).1 == files;
  }

  /**
   * `foreach ($screenshots as $i => $file)`: store each upload and create
   * its row with sort order `base + i + 1`.
   */
  method AppendScreenshots(images: Table<GameImage>, files: set<string>, game: Id, uploads: seq<Upload>, base: int)
    returns (images': Table<GameImage>, files': set<string>)
    ensures (images', files') == Append(images, files, game, uploads, base)
  {
    images', files' := images, files;
    AppendNothing(images, files, game, base);
    assert uploads[..0] == [];
    for k := 0 to |uploads|
      invariant images' == Append(images, files, game, uploads[..k], base).0
      invariant files' == Append(images, files, game, uploads[..k], base).1
    {
      var path := ScreenshotDir + uploads[k].hashName;
      var row := GameImage(game, path, false, base + k + 1);
      AppendStep(images, files, game, uploads, base, k);
      images' := images'.Insert(row).0;
      files' := files' + {path};
    }
    assert uploads[..|uploads|] == uploads;
  }

  /** One turn of the loop of `AppendScreenshots`: one insertion and one stored path. */
  lemma AppendStep(images: Table<GameImage>, files: set<string>, game: Id, uploads: seq<Upload>, base: int, k: nat)
    requires k < |uploads|
    ensures var before := Append(images, files, game, uploads[..k], base);
      var row := GameImage(game, ScreenshotDir + uploads[k].hashName, false, base + k + 1);
      && Append(images, files, game, uploads[..k + 1], base).0.rows == before.0.rows[before.0.next := row]
      && Append(images, files, game, uploads[..k + 1], base).0.next == before.0.next + 1
      && Append(images, files, game, uploads[..k + 1], base).1 == before.1 + {ScreenshotDir + uploads[k].hashName}
  {
    var row := GameImage(game, ScreenshotDir + uploads[k].hashName, false, base + k + 1);
    var before := NewScreenshots(images.next, game, uploads[..k], base);
    assert |uploads[..k]| == k;
    calc {
      Append(images, files, game, uploads[..k + 1], base).0.rows;
      images.rows + NewScreenshots(images.next, game, uploads[..k + 1], base);
      { NewScreenshotsStep(images.next, game, uploads, base, k); }
      images.rows + before[images.next + k := row];
      { UnionUpdate(images.rows, before, images.next + k, row); }
      (images.rows + before)[images.next + k := row];
      { assert Append(images, files, game, uploads[..k], base).0.next == images.next + k; }
      Append(images, files, game, uploads[..k], base).0.rows[Append(images, files, game, uploads[..k], base).0.next := row];
    }
    UploadPathsStep(ScreenshotDir, uploads, k);
  }

  /**
   * The appended screenshots get pairwise distinct sort orders that grow in
   * upload order and lie above every sort order at most `base`, so above
   * `MaxOrder` of the screenshots they are added to.
   */
  lemma AppendedAbove(images: Table<GameImage>, game: Id, uploads: seq<Upload>, base: int)
    requires images.Valid()
    ensures var added := NewScreenshots(images.next, game, uploads, base);
      && (forall a, b :: a in added && b in added && a < b ==> added[a].sortOrder < added[b].sortOrder)
      && (forall a, i :: a in added && i in images.rows && images.rows[i].sortOrder <= base ==>
            images.rows[i].sortOrder < added[a].sortOrder)
  {
  }

  /** Adding rows that are not main images, for games that exist, keeps the image constraints. */
  lemma AppendKeepsValid(images: Table<GameImage>, games: Table<Game>, game: Id, uploads: seq<Upload>, base: int,
    images': Table<GameImage>)
    requires ImagesValid(images, games) && game < games.next
    requires images'.rows == images.rows + NewScreenshots(images.next, game, uploads, base)
    requires images'.next == images.next + |uploads|
    ensures ImagesValid(images', games)
    ensures forall i :: i in images'.rows && images'.rows[i].isMain ==> i in images.rows
  {
  }

  /** The stored paths of the rows `ids`. */
  function PathsOf(rows: map<Id, GameImage>, ids: set<Id>): (r: set<string>)
    ensures forall p :: p in r <==> exists i :: i in ids && i in rows && rows[i].path == p
  {
    set i | i in ids && i in rows :: rows[i].path
  }

  /**
   * `foreach ($toDelete as $img) { Storage::delete($img->path); $img->delete(); }`:
   * the rows are gone and so are their stored objects.
   */
  method DeleteImages(images: Table<GameImage>, files: set<string>, doomed: set<Id>)
    returns (images': Table<GameImage>, files': set<string>)
    requires doomed <= images.rows.Keys
    ensures images' == images.(rows := images.rows - doomed)
    ensures files' == files - PathsOf(images.rows, doomed)
  {
    images', files' := images, files;
    var left := doomed;
    while left != {}
      invariant left <= doomed
      invariant images' == images.(rows := images.rows - (doomed - left))
      invariant files' == files - PathsOf(images.rows, doomed - left)
      decreases |left|
    {
      var i :| i in left;
      assert PathsOf(images.rows, doomed - (left - {i})) == PathsOf(images.rows, doomed - left) + {images.rows[i].path};
      files' := files' - {images'.rows[i].path};
      images' := images'.(rows := images'.rows - {i});
      left := left - {i};
    }
  }

  /** `$game->screenshots->whereNotIn('id', $keepIds)`: the game's screenshots whose id is not kept. */
  function Unkept(rows: map<Id, GameImage>, game: Id, keep: seq<Id>): (r: set<Id>)
    ensures forall i :: i in r <==> i in ScreenshotOrders(rows, game) && i !in keep
  {
    set i | i in rows && rows[i].gameId == game && !rows[i].isMain && i !in keep
  }

  /** Removing rows keeps the image constraints. */
  lemma RemoveKeepsValid(images: Table<GameImage>, games: Table<Game>, doomed: set<Id>)
    requires ImagesValid(images, games)
    ensures ImagesValid(images.(rows := images.rows - doomed), games)
  {
  }

  /** Pruning by a keep-list removes exactly the unkept screenshots: main images and kept screenshots stay as they were. */
  lemma PruneEffect(images: Table<GameImage>, game: Id, keep: seq<Id>, i: Id)
    requires i in images.rows
    ensures var pruned := images.rows - Unkept(images.rows, game, keep);
      (i in pruned <==> images.rows[i].gameId != game || images.rows[i].isMain || i in keep)
      && (i in pruned ==> pruned[i] == images.rows[i])
  {
  }

  /** Delete one image row and its stored object. */
  function RemoveImage(images: Table<GameImage>, files: set<string>, i: Id): (r: (Table<GameImage>, set<string>))
    requires i in images.rows
    ensures r.0 == images.(rows := images.rows - {i}) && r.1 == files - {images.rows[i].path}
  {
    (images.(rows := images.rows - {i}), files - {images.rows[i].path})
  }

  /** Store an upload under `games/main/` and create its row: `is_main` true, sort order 0. */
  function AddMain(images: Table<GameImage>, files: set<string>, game: Id, upload: Upload): (r: (Table<GameImage>, set<string>))
    ensures r.0 == images.Insert(GameImage(game, MainDir + upload.hashName, true, 0)).0
    ensures r.1 == files + {MainDir + upload.hashName}
  {
    (images.Insert(GameImage(game, MainDir + upload.hashName, true, 0)).0, files + {MainDir + upload.hashName})
  }

  /**
   * The main-image part of `update`. With `delete_main_image` present (its
   * value does not matter), the current main image is deleted; with an
   * uploaded `main_image`, the current main image is deleted unless that
   * already happened, and the upload becomes the new main image. The
   * relation is read once, so no image is deleted twice.
   */
  function MainImageStep(images: Table<GameImage>, files: set<string>, game: Id, delete: bool, upload: Option<Upload>)
    : (r: (Table<GameImage>, set<string>))
    requires images.Valid()
    ensures r.0.Valid() && r.0.next == images.next + |Seq(upload)|
  {
    var current := MainImage(images, game);
    var afterDelete := if delete && current.Some? then RemoveImage(images, files, current.value) else (images, files);
    if upload.None? then afterDelete
    else
      var cleared := if current.Some? && !delete then RemoveImage(afterDelete.0, afterDelete.1, current.value) else afterDelete;
      AddMain(cleared.0, cleared.1, game, upload.value)
  }

  /**
   * The main-image step deletes the current main image (row and stored
   * object) exactly when a deletion or an upload was asked for, keeps every
   * other row, and adds the upload as a main image with the next id.
   */
  lemma MainImageStepEffect(images: Table<GameImage>, files: set<string>, game: Id, delete: bool, upload: Option<Upload>)
    requires images.Valid()
    ensures var r := MainImageStep(images, files, game, delete, upload);
      var current := MainImage(images, game);
      && (!delete && upload.None? ==> r == (images, files))
      && (current.Some? && (delete || upload.Some?) ==>
            current.value !in r.0.rows && r.1 == files - {images.rows[current.value].path} + UploadPaths(MainDir, Seq(upload)))
      && (current.None? ==> r.1 == files + UploadPaths(MainDir, Seq(upload)))
      && (forall i :: i in images.rows && Some(i) != current ==> i in r.0.rows && r.0.rows[i] == images.rows[i])
      && (forall i :: i in r.0.rows ==> i in images.rows || (upload.Some? && i == images.next))
      && (upload.Some? ==> images.next in r.0.rows && r.0.rows[images.next] == GameImage(game, MainDir + upload.value.hashName, true, 0))
  {
  }

  /** The uploads of an optional upload: none or one. */
  function Seq(upload: Option<Upload>): (s: seq<Upload>)
    ensures |s| == (if upload.Some? then 1 else 0)
    ensures upload.Some? ==> s[0] == upload.value
  {
    if upload.Some? then [upload.value] else []
  }

  /**
   * After the main-image step, the game has at most one main image: the new
   * upload if there was one, none if only a deletion was asked for.
   */
  lemma MainImageStepValid(images: Table<GameImage>, games: Table<Game>, files: set<string>, game: Id,
    delete: bool, upload: Option<Upload>)
    requires ImagesValid(images, games) && game < games.next
    ensures var r := MainImageStep(images, files, game, delete, upload);
      && ImagesValid(r.0, games)
      && (upload.Some? ==> MainImage(r.0, game) == Some(images.next))
      && (upload.None? && delete ==> MainImage(r.0, game).None?)
  {
    var r := MainImageStep(images, files, game, delete, upload);
    var current := MainImage(images, game);
    MainImageStepEffect(images, files, game, delete, upload);
    assert r.0.Valid();
    forall a, b | a in r.0.rows && b in r.0.rows && r.0.rows[a].isMain && r.0.rows[b].isMain
      && r.0.rows[a].gameId == r.0.rows[b].gameId
      ensures a == b
    {
      var oldA, oldB := a in images.rows && a != images.next, b in images.rows && b != images.next;
      var owner := r.0.rows[a].gameId;
      if a != b && owner == game {
        if oldA && !oldB {
          MainImageIsTheMain(images, game, a);
        } else if oldB && !oldA {
          MainImageIsTheMain(images, game, b);
        }
      }
    }
    if upload.None? && delete && MainImage(r.0, game).Some? {
      var m := MainImage(r.0, game).value;
      MainImageIsTheMain(images, game, m);
      assert false;
    }
  }

  // ---- the image blocks of store and update ----

  /** Upload `k` becomes row `at`, which is `next + k`, with sort order `base + k + 1`. */
  lemma AppendedRow(images: Table<GameImage>, files: set<string>, game: Id, uploads: seq<Upload>, base: int, k: nat, at: Id)
    requires k < |uploads| && at == images.next + k
    ensures var r := Append(images, files, game, uploads, base);
      at in r.0.rows && r.0.rows[at] == GameImage(game, ScreenshotDir + uploads[k].hashName, false, base + k + 1)
  {
    assert at in NewScreenshots(images.next, game, uploads, base);
  }

  /**
   * Appending keeps the earlier rows, and upload `k` becomes row `next + k`
   * with sort order `base + k + 1`.
   */
  lemma AppendEffect(images: Table<GameImage>, files: set<string>, game: Id, uploads: seq<Upload>, base: int)
    requires images.Valid()
    ensures var r := Append(images, files, game, uploads, base);
      && (forall i :: i in r.0.rows <==> i in images.rows || images.next <= i < images.next + |uploads|)
      && (forall i :: i in images.rows ==> r.0.rows[i] == images.rows[i])
      && (forall k :: 0 <= k < |uploads| ==>
            r.0.rows[images.next + k] == GameImage(game, ScreenshotDir + uploads[k].hashName, false, base + k + 1))
  {
    var added := NewScreenshots(images.next, game, uploads, base);
    forall k | 0 <= k < |uploads|
      ensures (images.rows + added)[images.next + k] == GameImage(game, ScreenshotDir + uploads[k].hashName, false, base + k + 1)
    {
      assert images.next + k in added;
    }
  }

  /**
   * The `keep_screenshots` block: when a keep-list was sent, the game's
   * screenshots not in it are deleted with their stored objects.
   */
  function KeepStep(images: Table<GameImage>, files: set<string>, game: Id, keep: Option<seq<Id>>)
    : (r: (Table<GameImage>, set<string>))
    ensures r.0.next == images.next && r.0.rows.Keys <= images.rows.Keys
  {
    if keep.None? then (images, files)
    else
      var doomed := Unkept(images.rows, game, keep.value);
      (images.(rows := images.rows - doomed), files - PathsOf(images.rows, doomed))
  }

  /** Main images, kept screenshots and other games' images stay as they were; nothing else does. */
  lemma KeepStepEffect(images: Table<GameImage>, files: set<string>, game: Id, keep: Option<seq<Id>>)
    ensures var r := KeepStep(images, files, game, keep);
      && r.0.next == images.next
      && (forall i :: i in r.0.rows <==>
            i in images.rows && (keep.None? || images.rows[i].gameId != game || images.rows[i].isMain || i in keep.value))
      && (forall i :: i in r.0.rows ==> r.0.rows[i] == images.rows[i])
  {
  }

  /** The image blocks of `store`: the main image, then the screenshots with sort orders 1, 2, ... */
  function StoreImages(images: Table<GameImage>, files: set<string>, game: Id, main: Option<Upload>, uploads: seq<Upload>)
    : (Table<GameImage>, set<string>)
  {
    var m := StoreMain(images, files, game, main);
    Append(m.0, m.1, game, uploads, 0)
  }

  /**
   * `store` on a game without images keeps the image constraints and makes
   * the uploaded main image (`is_main`, sort order 0) the game's main image;
   * without an upload the game has none.
   */
  lemma StoreImagesMain(images: Table<GameImage>, games: Table<Game>, files: set<string>, game: Id,
    main: Option<Upload>, uploads: seq<Upload>)
    requires ImagesValid(images, games) && game < games.next
    requires forall i :: i in images.rows ==> images.rows[i].gameId != game
    ensures var r := StoreImages(images, files, game, main, uploads);
      && ImagesValid(r.0, games)
      && (main.Some? ==>
            (MainImage(r.0, game) == Some(images.next)
            && r.0.rows[images.next] == GameImage(game, MainDir + main.value.hashName, true, 0)))
      && (main.None? ==> MainImage(r.0, game).None?)
  {
    var m := StoreMain(images, files, game, main);
    assert ImagesValid(m.0, games);
    var r := StoreImages(images, files, game, main, uploads);
    AppendKeepsValid(m.0, games, game, uploads, 0, r.0);
    if main.Some? {
      assert images.next in r.0.rows;
      MainImageIsTheMain(r.0, game, images.next);
    }
  }

  /** The tables after the main-image block of `store`. */
  function StoreMain(images: Table<GameImage>, files: set<string>, game: Id, main: Option<Upload>)
    : (r: (Table<GameImage>, set<string>))
    ensures r.0.next == images.next + |Seq(main)|
    ensures r.1 == files + UploadPaths(MainDir, Seq(main))
    ensures forall i :: i in r.0.rows <==> i in images.rows || (main.Some? && i == images.next)
    ensures images.Valid() ==> forall i :: i in images.rows ==> r.0.rows[i] == images.rows[i]
    ensures main.Some? ==> r.0.rows[images.next].isMain
  {
    if main.Some? then
      assert UploadPaths(MainDir, Seq(main)) == {MainDir + main.value.hashName};
      AddMain(images, files, game, main.value)
    else
      assert UploadPaths(MainDir, Seq(main)) == {};
      (images, files)
  }

  /**
   * The new game's screenshots are exactly its uploaded screenshots, upload
   * `k` with sort order `k + 1`.
   */
  lemma StoreImagesScreenshots(images: Table<GameImage>, files: set<string>, game: Id,
    main: Option<Upload>, uploads: seq<Upload>)
    requires images.Valid()
    requires forall i :: i in images.rows ==> images.rows[i].gameId != game
    ensures var r := StoreImages(images, files, game, main, uploads);
      forall i :: i in ScreenshotOrders(r.0.rows, game) <==> images.next + |Seq(main)| <= i < images.next + |Seq(main)| + |uploads|
  {
    var m := StoreMain(images, files, game, main);
    var r := StoreImages(images, files, game, main, uploads);
    assert r == Append(m.0, m.1, game, uploads, 0);
    AppendEffect(m.0, m.1, game, uploads, 0);
    forall i ensures i in ScreenshotOrders(r.0.rows, game) <==> m.0.next <= i < m.0.next + |uploads| {
      if m.0.next <= i < m.0.next + |uploads| {
        assert r.0.rows[m.0.next + (i - m.0.next)].gameId == game;
      } else if i in r.0.rows {
        assert i in m.0.rows && r.0.rows[i] == m.0.rows[i];
      }
    }
  }

  /** Upload `k` of `store` becomes the new game's screenshot with sort order `k + 1`. */
  lemma StoreScreenshotRows(images: Table<GameImage>, files: set<string>, game: Id, main: Option<Upload>, uploads: seq<Upload>)
    ensures var r := StoreImages(images, files, game, main, uploads);
      forall k :: 0 <= k < |uploads| ==>
        && images.next + |Seq(main)| + k in r.0.rows
        && r.0.rows[images.next + |Seq(main)| + k] == GameImage(game, ScreenshotDir + uploads[k].hashName, false, k + 1)
  {
    var m := StoreMain(images, files, game, main);
    var r := Append(m.0, m.1, game, uploads, 0);
    assert r.0.rows == StoreImages(images, files, game, main, uploads).0.rows;
    forall k | 0 <= k < |uploads|
      ensures images.next + |Seq(main)| + k in r.0.rows
      ensures r.0.rows[images.next + |Seq(main)| + k] == GameImage(game, ScreenshotDir + uploads[k].hashName, false, k + 1)
    {
      AppendedRow(m.0, m.1, game, uploads, 0, k, images.next + |Seq(main)| + k);
    }
  }

  /** `store` stores the main upload and every screenshot upload, and removes nothing. */
  lemma StoreImagesFiles(images: Table<GameImage>, files: set<string>, game: Id, main: Option<Upload>, uploads: seq<Upload>)
    ensures StoreImages(images, files, game, main, uploads).1
      == files + UploadPaths(MainDir, Seq(main)) + UploadPaths(ScreenshotDir, uploads)
  {
    var m := StoreMain(images, files, game, main);
    assert StoreImages(images, files, game, main, uploads).1 == m.1 + UploadPaths(ScreenshotDir, uploads);
  }

  /**
   * The image blocks of `update`: the main-image step, then pruning by the
   * keep-list (when sent), then appending above the largest sort order of the
   * screenshots as the relation was first loaded, before pruning.
   */
  function UpdateImages(images: Table<GameImage>, files: set<string>, game: Id,
    delete: bool, upload: Option<Upload>, keep: Option<seq<Id>>, uploads: seq<Upload>): (Table<GameImage>, set<string>)
    requires images.Valid()
  {
    var m := MainImageStep(images, files, game, delete, upload);
    var p := KeepStep(m.0, m.1, game, keep);
    Append(p.0, p.1, game, uploads, MaxOrder(m.0, game))
  }

  /** Two image tables with the same main images of a game give the game the same `mainImage`. */
  lemma SameMains(a: Table<GameImage>, b: Table<GameImage>, game: Id)
    requires a.Valid() && b.Valid() && AtMostOneMain(a.rows) && AtMostOneMain(b.rows)
    requires forall i :: i in a.rows && a.rows[i].gameId == game && a.rows[i].isMain ==> i in b.rows && b.rows[i] == a.rows[i]
    requires forall i :: i in b.rows && b.rows[i].gameId == game && b.rows[i].isMain ==> i in a.rows && a.rows[i] == b.rows[i]
    ensures MainImage(b, game) == MainImage(a, game)
  {
    var ma := MainImage(a, game);
    if ma.Some? {
      MainImageIsTheMain(b, game, ma.value);
    }
  }

  /** `update` keeps the image constraints; the pruning and the appending change no main image. */
  lemma UpdateImagesValid(images: Table<GameImage>, games: Table<Game>, files: set<string>, game: Id,
    delete: bool, upload: Option<Upload>, keep: Option<seq<Id>>, uploads: seq<Upload>)
    requires ImagesValid(images, games) && game < games.next
    ensures var m := MainImageStep(images, files, game, delete, upload);
      var r := UpdateImages(images, files, game, delete, upload, keep, uploads);
      && ImagesValid(r.0, games)
      && MainImage(r.0, game) == MainImage(m.0, game)
  {
    var m := MainImageStep(images, files, game, delete, upload);
    MainImageStepValid(images, games, files, game, delete, upload);
    var p := KeepStep(m.0, m.1, game, keep);
    KeepStepEffect(m.0, m.1, game, keep);
    assert ImagesValid(p.0, games);
    var r := Append(p.0, p.1, game, uploads, MaxOrder(m.0, game));
    AppendKeepsValid(p.0, games, game, uploads, MaxOrder(m.0, game), r.0);
    AppendEffect(p.0, p.1, game, uploads, MaxOrder(m.0, game));
    SameMains(m.0, r.0, game);
  }

  /**
   * After `update` the game's main image is the uploaded one if there was an
   * upload, none if only a deletion was asked for, and the one it had
   * otherwise.
   */
  lemma UpdateImagesMain(images: Table<GameImage>, games: Table<Game>, files: set<string>, game: Id,
    delete: bool, upload: Option<Upload>, keep: Option<seq<Id>>, uploads: seq<Upload>)
    requires ImagesValid(images, games) && game < games.next
    ensures var r := UpdateImages(images, files, game, delete, upload, keep, uploads);
      && (upload.Some? ==> MainImage(r.0, game) == Some(images.next))
      && (upload.None? && delete ==> MainImage(r.0, game).None?)
      && (upload.None? && !delete ==> MainImage(r.0, game) == MainImage(images, game))
  {
    MainImageStepValid(images, games, files, game, delete, upload);
    UpdateImagesValid(images, games, files, game, delete, upload, keep, uploads);
  }

  /**
   * After `update` the game's earlier screenshots are those it had that are
   * in the keep-list (all of them when no keep-list was sent), unchanged;
   * every other screenshot of the game is a new one.
   */
  lemma UpdateImagesKept(images: Table<GameImage>, files: set<string>, game: Id,
    delete: bool, upload: Option<Upload>, keep: Option<seq<Id>>, uploads: seq<Upload>)
    requires images.Valid()
    ensures var r := UpdateImages(images, files, game, delete, upload, keep, uploads);
      && (forall i :: i in ScreenshotOrders(images.rows, game) ==>
            (i in r.0.rows <==> keep.None? || i in keep.value))
      && (forall i :: i in ScreenshotOrders(images.rows, game) && i in r.0.rows ==> r.0.rows[i] == images.rows[i])
      && (forall i :: i in ScreenshotOrders(r.0.rows, game) ==>
            i in ScreenshotOrders(images.rows, game) || images.next + |Seq(upload)| <= i)
  {
    var r := UpdateImages(images, files, game, delete, upload, keep, uploads);
    forall i
      ensures i in ScreenshotOrders(images.rows, game) ==> (i in r.0.rows <==> keep.None? || i in keep.value)
      ensures i in ScreenshotOrders(images.rows, game) && i in r.0.rows ==> r.0.rows[i] == images.rows[i]
      ensures i in ScreenshotOrders(r.0.rows, game) ==> i in ScreenshotOrders(images.rows, game) || images.next + |Seq(upload)| <= i
    {
      UpdateImagesAt(images, files, game, delete, upload, keep, uploads, i);
    }
  }

  /** `UpdateImagesKept` for one id. */
  lemma UpdateImagesAt(images: Table<GameImage>, files: set<string>, game: Id,
    delete: bool, upload: Option<Upload>, keep: Option<seq<Id>>, uploads: seq<Upload>, i: Id)
    requires images.Valid()
    ensures var r := UpdateImages(images, files, game, delete, upload, keep, uploads);
      && (i in ScreenshotOrders(images.rows, game) ==> (i in r.0.rows <==> keep.None? || i in keep.value))
      && (i in ScreenshotOrders(images.rows, game) && i in r.0.rows ==> r.0.rows[i] == images.rows[i])
      && (i in ScreenshotOrders(r.0.rows, game) ==> i in ScreenshotOrders(images.rows, game) || images.next + |Seq(upload)| <= i)
  {
    var m := MainImageStep(images, files, game, delete, upload);
    MainStepAt(images, files, game, delete, upload, i);
    var p := KeepStep(m.0, m.1, game, keep);
    KeepStepAt(m.0, m.1, game, keep, i);
    AppendAt(p.0, p.1, game, uploads, MaxOrder(m.0, game), i);
  }

  /** `MainImageStepEffect` for one id. */
  lemma MainStepAt(images: Table<GameImage>, files: set<string>, game: Id, delete: bool, upload: Option<Upload>, i: Id)
    requires images.Valid()
    ensures var r := MainImageStep(images, files, game, delete, upload);
      && (i in images.rows && Some(i) != MainImage(images, game) ==> i in r.0.rows && r.0.rows[i] == images.rows[i])
      && (i in images.rows && images.rows[i].gameId == game && !images.rows[i].isMain ==> Some(i) != MainImage(images, game))
      && (i in r.0.rows ==> i in images.rows || (upload.Some? && i == images.next))
      && (i in r.0.rows && i in images.rows ==> r.0.rows[i] == images.rows[i])
      && (upload.Some? && i == images.next ==> r.0.rows[i].isMain)
      && r.0.Valid() && r.0.next == images.next + |Seq(upload)|
  {
  }

  /** `KeepStepEffect` for one id. */
  lemma KeepStepAt(images: Table<GameImage>, files: set<string>, game: Id, keep: Option<seq<Id>>, i: Id)
    ensures var r := KeepStep(images, files, game, keep);
      && r.0.next == images.next
      && (i in r.0.rows <==>
            i in images.rows && (keep.None? || images.rows[i].gameId != game || images.rows[i].isMain || i in keep.value))
      && (i in r.0.rows ==> r.0.rows[i] == images.rows[i])
  {
  }

  /** `AppendEffect` for one id. */
  lemma AppendAt(images: Table<GameImage>, files: set<string>, game: Id, uploads: seq<Upload>, base: int, i: Id)
    requires images.Valid()
    ensures var r := Append(images, files, game, uploads, base);
      && (i in r.0.rows <==> i in images.rows || images.next <= i < images.next + |uploads|)
      && (i in images.rows ==> r.0.rows[i] == images.rows[i])
  {
  }

  /**
   * The sort orders of the appended screenshots start above `base`, the
   * largest sort order of the screenshots as first loaded: every earlier
   * screenshot's sort order is at most `base`.
   */
  lemma UpdateImagesBase(images: Table<GameImage>, files: set<string>, game: Id, delete: bool, upload: Option<Upload>)
    requires images.Valid()
    ensures var base := MaxOrder(MainImageStep(images, files, game, delete, upload).0, game);
      forall i :: i in ScreenshotOrders(images.rows, game) ==> images.rows[i].sortOrder <= base
  {
    var m := MainImageStep(images, files, game, delete, upload);
    MainImageStepEffect(images, files, game, delete, upload);
    assert forall i :: i in ScreenshotOrders(images.rows, game) ==> i in ScreenshotOrders(m.0.rows, game);
  }

  /**
   * The uploads follow the kept screenshots: upload `k` gets id
   * `images.next + |Seq(upload)| + k` and sort order `base + k + 1`, so with
   * `UpdateImagesBase` every new screenshot sorts after every earlier one;
   * the uploads are stored.
   */
  lemma UpdateImagesAppended(images: Table<GameImage>, files: set<string>, game: Id,
    delete: bool, upload: Option<Upload>, keep: Option<seq<Id>>, uploads: seq<Upload>, k: nat)
    requires images.Valid() && k < |uploads|
    ensures var r := UpdateImages(images, files, game, delete, upload, keep, uploads);
      var base := MaxOrder(MainImageStep(images, files, game, delete, upload).0, game);
      && images.next + |Seq(upload)| + k in r.0.rows
      && r.0.rows[images.next + |Seq(upload)| + k] == GameImage(game, ScreenshotDir + uploads[k].hashName, false, base + k + 1)
  {
    var m := MainImageStep(images, files, game, delete, upload);
    var p := KeepStep(m.0, m.1, game, keep);
    assert p.0.next == images.next + |Seq(upload)|;
    AppendedRow(p.0, p.1, game, uploads, MaxOrder(m.0, game), k, images.next + |Seq(upload)| + k);
  }

  /** Every uploaded screenshot is stored by `update`. */
  lemma UpdateImagesStored(images: Table<GameImage>, files: set<string>, game: Id,
    delete: bool, upload: Option<Upload>, keep: Option<seq<Id>>, uploads: seq<Upload>)
    requires images.Valid()
    ensures forall k :: 0 <= k < |uploads| ==>
      ScreenshotDir + uploads[k].hashName in UpdateImages(images, files, game, delete, upload, keep, uploads).1
  {
    var m := MainImageStep(images, files, game, delete, upload);
    var p := KeepStep(m.0, m.1, game, keep);
    assert UpdateImages(images, files, game, delete, upload, keep, uploads).1
      == p.1 + UploadPaths(ScreenshotDir, uploads);
  }

  /** The game's screenshots from `next` on are the appended ones, sorting at `base + 1`, `base + 2`, ... */
  lemma AppendedOrders(images: Table<GameImage>, files: set<string>, game: Id, uploads: seq<Upload>, base: int)
    requires images.Valid()
    ensures var shots := ScreenshotOrders(Append(images, files, game, uploads, base).0.rows, game);
      forall j :: j in shots && images.next <= j ==> shots[j] == base + (j - images.next) + 1
  {
    var r := Append(images, files, game, uploads, base);
    forall j | j in ScreenshotOrders(r.0.rows, game) && images.next <= j
      ensures r.0.rows[j].sortOrder == base + (j - images.next) + 1
    {
      var k := j - images.next;
      assert j !in images.rows;
      AppendedRow(images, files, game, uploads, base, k, j);
    }
  }

  /** The new screenshots of `update` sort at `base + 1`, `base + 2`, ... in upload order. */
  lemma UpdateNewOrders(images: Table<GameImage>, files: set<string>, game: Id,
    delete: bool, upload: Option<Upload>, keep: Option<seq<Id>>, uploads: seq<Upload>)
    requires images.Valid()
    ensures var shots := ScreenshotOrders(UpdateImages(images, files, game, delete, upload, keep, uploads).0.rows, game);
      var first := images.next + |Seq(upload)|;
      var base := MaxOrder(MainImageStep(images, files, game, delete, upload).0, game);
      forall j :: j in shots && first <= j ==> shots[j] == base + (j - first) + 1
  {
    var m := MainImageStep(images, files, game, delete, upload);
    var p := KeepStep(m.0, m.1, game, keep);
    assert p.0.next == images.next + |Seq(upload)|;
    AppendedOrders(p.0, p.1, game, uploads, MaxOrder(m.0, game));
  }

  /** The screenshots that `update` keeps sort at most at `base`. */
  lemma UpdateOldOrders(images: Table<GameImage>, files: set<string>, game: Id,
    delete: bool, upload: Option<Upload>, keep: Option<seq<Id>>, uploads: seq<Upload>)
    requires images.Valid()
    ensures var shots := ScreenshotOrders(UpdateImages(images, files, game, delete, upload, keep, uploads).0.rows, game);
      var first := images.next + |Seq(upload)|;
      var base := MaxOrder(MainImageStep(images, files, game, delete, upload).0, game);
      forall i :: i in shots && i < first ==> shots[i] <= base
  {
    var r := UpdateImages(images, files, game, delete, upload, keep, uploads);
    UpdateImagesKept(images, files, game, delete, upload, keep, uploads);
    UpdateImagesBase(images, files, game, delete, upload);
    var shots := ScreenshotOrders(r.0.rows, game);
    forall i | i in shots && i < images.next + |Seq(upload)|
      ensures shots[i] <= MaxOrder(MainImageStep(images, files, game, delete, upload).0, game)
    {
      assert i in ScreenshotOrders(images.rows, game);
      assert r.0.rows[i] == images.rows[i];
    }
  }

  /**
   * After `update` the game's screenshots that were there before all sort
   * before the new ones, and the new ones sort in upload order.
   */
  lemma UpdateImagesOrdered(images: Table<GameImage>, files: set<string>, game: Id,
    delete: bool, upload: Option<Upload>, keep: Option<seq<Id>>, uploads: seq<Upload>)
    requires images.Valid()
    ensures var shots := ScreenshotOrders(UpdateImages(images, files, game, delete, upload, keep, uploads).0.rows, game);
      var first := images.next + |Seq(upload)|;
      && (forall i, j :: i in shots && j in shots && i < first <= j ==> shots[i] < shots[j])
      && (forall i, j :: i in shots && j in shots && first <= i < j ==> shots[i] < shots[j])
  {
    UpdateNewOrders(images, files, game, delete, upload, keep, uploads);
    UpdateOldOrders(images, files, game, delete, upload, keep, uploads);
  }

  /** The image blocks of `store` with the storing loop. */
  method StoreImageBlocks(images: Table<GameImage>, files: set<string>, game: Id, main: Option<Upload>, uploads: seq<Upload>)
    returns (images': Table<GameImage>, files': set<string>)
    ensures (images', files') == StoreImages(images, files, game, main, uploads)
  {
    images', files' := images, files;
    if main.Some? {
      images', files' := AddMain(images, files, game, main.value).0, files + {MainDir + main.value.hashName};
    }
    images', files' := AppendScreenshots(images', files', game, uploads, 0);
  }

  /**
   * The image blocks of `update`: the main-image block, then the pruning of
   * the screenshots left out of the keep-list, then the new screenshots
   * after the largest sort order the game had before the pruning.
   */
  method UpdateImageBlocks(images: Table<GameImage>, files: set<string>, game: Id,
    delete: bool, upload: Option<Upload>, keep: Option<seq<Id>>, uploads: seq<Upload>)
    returns (images': Table<GameImage>, files': set<string>)
    requires images.Valid()
    ensures (images', files') == UpdateImages(images, files, game, delete, upload, keep, uploads)
  {
    var m := MainImageStep(images, files, game, delete, upload);
    var base := MaxOrder(m.0, game);
    images', files' := m.0, m.1;
    if keep.Some? {
      images', files' := DeleteImages(images', files', Unkept(images'.rows, game, keep.value));
    }
    images', files' := AppendScreenshots(images', files', game, uploads, base);
  }
}
