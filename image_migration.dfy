/** migrate-images-to-blob.js: every product whose `image_url` points under
    `/uploads/` has its file read into `image_blob`, its MIME type chosen from
    the file's extension, and its URL pointed at the blob endpoint. A product
    whose file is missing, or whose read or UPDATE throws, is left as it was
    and counted as an error. */
module ImageMigration {
  import opened Common
  import opened Catalog
  import opened Shop

  const UploadsPrefix := "/uploads/"

  // ---------------------------------------------------------------------
  // MIME type from the file extension

  /** ASCII lower-casing, one character. */
  function LowerChar(c: char): (r: char)
    ensures 'A' <= c <= 'Z' ==> r as int == c as int + 32
    ensures !('A' <= c <= 'Z') ==> r == c
    ensures !('A' <= r <= 'Z')
  {
    if 'A' <= c <= 'Z' then (c as int + 32) as char else c
  }

  /** `toLowerCase()` on an ASCII string. */
  function ToLower(s: string): (r: string)
    ensures |r| == |s|
    ensures forall i :: 0 <= i < |s| ==> r[i] == LowerChar(s[i])
  {
    if s == [] then [] else [LowerChar(s[0])] + ToLower(s[1..])
  }

  /** Lower-casing twice is lower-casing once. */
  lemma ToLowerIdempotent(s: string)
    ensures ToLower(ToLower(s)) == ToLower(s)
  {
    var once := ToLower(s);
    assert forall i :: 0 <= i < |once| ==> ToLower(once)[i] == once[i];
  }

  /** The type recorded for a file with extension `ext`: `.png`, `.gif` and
      `.webp` have their own, and everything else, `.jpg` and `.jpeg`
      included, is `image/jpeg`. */
  function MimeType(ext: string): (r: string)
    ensures r == "image/png" || r == "image/gif" || r == "image/webp" || r == "image/jpeg"
  {
    var e := ToLower(ext);
    if e == ".png" then "image/png"
    else if e == ".gif" then "image/gif"
    else if e == ".webp" then "image/webp"
    else if e == ".jpg" || e == ".jpeg" then "image/jpeg"
    else "image/jpeg"
  }

  /** The table, in both directions: each of the three specific types is
      chosen exactly for its extension (in any letter case), and `image/jpeg`
      exactly for every other extension. */
  lemma MimeTypeTable(ext: string)
    ensures MimeType(ext) == "image/png" <==> ToLower(ext) == ".png"
    ensures MimeType(ext) == "image/gif" <==> ToLower(ext) == ".gif"
    ensures MimeType(ext) == "image/webp" <==> ToLower(ext) == ".webp"
    ensures MimeType(ext) == "image/jpeg" <==> ToLower(ext) !in {".png", ".gif", ".webp"}
  {
    assert "image/png"[6] == 'p' && "image/gif"[6] == 'g' && "image/webp"[6] == 'w' && "image/jpeg"[6] == 'j';
  }

  /** The letter case of the extension never matters. */
  lemma MimeTypeIgnoresCase(ext: string)
    ensures MimeType(ToLower(ext)) == MimeType(ext)
  {
    ToLowerIdempotent(ext);
  }

  /** Upper-case extensions are recognised. */
  lemma MimeTypeUpperCase()
    ensures MimeType(".PNG") == "image/png"
    ensures MimeType(".WebP") == "image/webp"
  {
    assert ToLower(".PNG") == ".png";
    assert ToLower(".WebP") == ".webp";
  }

  /** An absent or unknown extension falls back to `image/jpeg`. */
  lemma MimeTypeFallback()
    ensures MimeType("") == "image/jpeg"
    ensures MimeType(".bmp") == "image/jpeg"
  {
    assert ToLower(".bmp") == ".bmp";
  }

  // ---------------------------------------------------------------------
  // Filename from the URL

  predicate OccursAt(s: string, pat: string, i: nat)
  {
    i + |pat| <= |s| && s[i..i + |pat|] == pat
  }

  predicate StartsWith(s: string, prefix: string)
  {
    |prefix| <= |s| && s[..|prefix|] == prefix
  }

  /** `indexOf`: the first position at which `pat` occurs in `s`, if any. */
  function IndexOf(s: string, pat: string): (r: Option<nat>)
    ensures r.Some? ==> OccursAt(s, pat, r.value)
    ensures r.Some? ==> forall j :: 0 <= j < r.value ==> !OccursAt(s, pat, j)
    ensures r.None? ==> forall j :: 0 <= j <= |s| ==> !OccursAt(s, pat, j)
    decreases |s|
  {
    if |s| < |pat| then None
    else if s[..|pat|] == pat then Some(0)
    else
      var rest := IndexOf(s[1..], pat);
      assert forall j :: 0 < j <= |s| && OccursAt(s, pat, j) ==> OccursAt(s[1..], pat, j - 1) by {
        forall j | 0 < j <= |s| && OccursAt(s, pat, j)
          ensures OccursAt(s[1..], pat, j - 1)
        {
          assert s[1..][j - 1..j - 1 + |pat|] == s[j..j + |pat|];
        }
      }
      if rest.None? then None
      else
        assert s[1..][rest.value..rest.value + |pat|] == s[rest.value + 1..rest.value + 1 + |pat|];
        Some(rest.value + 1)
  }

  /** `s.replace(pat, rep)` with a string pattern: only the first occurrence
      is replaced, and a string without one is returned as it is. */
  function ReplaceFirst(s: string, pat: string, rep: string): (r: string)
    ensures (forall j :: 0 <= j <= |s| ==> !OccursAt(s, pat, j)) ==> r == s
    ensures forall i: nat :: OccursAt(s, pat, i) && (forall j :: 0 <= j < i ==> !OccursAt(s, pat, j)) ==>
              r == s[..i] + rep + s[i + |pat|..]
  {
    match IndexOf(s, pat)
    case None =>
      assert forall i: nat :: OccursAt(s, pat, i) ==> i <= |s|;
      s
    case Some(i) => s[..i] + rep + s[i + |pat|..]
  }

  /** The filename part of an `/uploads/...` URL. */
  function UploadFilename(url: string): (r: string)
    ensures (forall j :: 0 <= j <= |url| ==> !OccursAt(url, UploadsPrefix, j)) ==> r == url
    ensures |r| <= |url|
  {
    ReplaceFirst(url, UploadsPrefix, "")
  }

  /** For a URL that starts with `/uploads/`, the filename is exactly what
      follows the prefix: putting the prefix back gives the URL. */
  lemma UploadFilenameStripsPrefix(url: string)
    requires StartsWith(url, UploadsPrefix)
    ensures UploadsPrefix + UploadFilename(url) == url
    ensures |UploadFilename(url)| == |url| - |UploadsPrefix|
  {
    assert OccursAt(url, UploadsPrefix, 0);
    assert IndexOf(url, UploadsPrefix) == Some(0);
    assert UploadFilename(url) == url[|UploadsPrefix|..];
  }

  /** Only the leading `/uploads/` goes: whatever follows it is kept as it
      is, even when it holds `/uploads/` again. */
  lemma OnlyFirstOccurrenceStripped(rest: string)
    ensures UploadFilename(UploadsPrefix + rest) == rest
  {
    var url := UploadsPrefix + rest;
    assert url[..|UploadsPrefix|] == UploadsPrefix;
    UploadFilenameStripsPrefix(url);
    assert url[|UploadsPrefix|..] == rest;
  }

  // ---------------------------------------------------------------------
  // The migration

  /** Picked by `image_url IS NOT NULL AND image_url LIKE "/uploads/%"`. */
  predicate IsSelected(p: Product)
  {
    p.imageUrl.Some? && StartsWith(p.imageUrl.value, UploadsPrefix)
  }

  function Selected(products: map<nat, Product>): (r: set<nat>)
    ensures r <= products.Keys
    ensures forall id :: id in r ==> products[id].imageUrl.Some? && products[id].imageUrl != Some(ImageUrl(id))
  {
    assert forall id :: id in products && IsSelected(products[id]) ==> products[id].imageUrl != Some(ImageUrl(id)) by {
      forall id | id in products && IsSelected(products[id])
        ensures products[id].imageUrl != Some(ImageUrl(id))
      {
        ImageUrlNotSelected(id);
      }
    }
    set id | id in products && IsSelected(products[id])
  }

  /** The file a selected product's URL names: what follows `/uploads/`. */
  function FileOf(p: Product): string
    requires IsSelected(p)
  {
    p.imageUrl.value[|UploadsPrefix|..]
  }

  /** That is the filename the script extracts with its `replace`. */
  lemma FileOfIsUploadFilename(p: Product)
    requires IsSelected(p)
    ensures FileOf(p) == UploadFilename(p.imageUrl.value)
  {
    UploadFilenameStripsPrefix(p.imageUrl.value);
  }

  /** The selected products whose file exists and whose read and UPDATE go
      through; `failing` names the products for which one of them throws. */
  function Found(products: map<nat, Product>, files: map<string, seq<byte>>, failing: set<nat>): (r: set<nat>)
    ensures r <= Selected(products)
  {
    set id | id in Selected(products) && FileOf(products[id]) in files && id !in failing
  }

  /** The row after `UPDATE products SET image_blob, image_mime_type, image_url`. */
  function MigrateOne(p: Product, id: nat, files: map<string, seq<byte>>, extname: string -> string): (r: Product)
    requires IsSelected(p) && FileOf(p) in files
    ensures r == p.(imageBlob := r.imageBlob, imageMimeType := r.imageMimeType, imageUrl := r.imageUrl)
    ensures r.imageBlob == Some(files[FileOf(p)])
    ensures r.imageMimeType == Some(MimeType(extname(UploadFilename(p.imageUrl.value))))
    ensures r.imageUrl == Some(ImageUrl(id))
    ensures !IsSelected(r)
  {
    var filename := FileOf(p);
    FileOfIsUploadFilename(p);
    ImageUrlNotSelected(id);
    p.(imageBlob := Some(files[filename]), imageMimeType := Some(MimeType(extname(filename))),
       imageUrl := Some(ImageUrl(id)))
  }

  /** The products table once every selected product has been visited. */
  function Migrated(products: map<nat, Product>, files: map<string, seq<byte>>, extname: string -> string,
                    failing: set<nat>): (r: map<nat, Product>)
    ensures r.Keys == products.Keys
    ensures forall id :: id in products && id !in Found(products, files, failing) ==> r[id] == products[id]
    ensures forall id :: id in Found(products, files, failing) ==> r[id] == MigrateOne(products[id], id, files, extname)
  {
    map id | id in products ::
      if id in Found(products, files, failing) then MigrateOne(products[id], id, files, extname) else products[id]
  }

  /** The blob endpoint's URL is never selected again. */
  lemma ImageUrlNotSelected(id: nat)
    ensures !StartsWith(ImageUrl(id), UploadsPrefix)
  {
    assert ImageUrl(id)[1] == 'a';
    assert UploadsPrefix[1] == 'u';
  }

  /** A second run selects exactly the products the first one could not
      migrate, and so migrates nothing already migrated. */
  lemma RerunSelectsOnlyFailures(products: map<nat, Product>, files: map<string, seq<byte>>,
                                 extname: string -> string, failing: set<nat>)
    ensures Selected(Migrated(products, files, extname, failing))
            == Selected(products) - Found(products, files, failing)
  {
    var after := Migrated(products, files, extname, failing);
    var found := Found(products, files, failing);
    forall id | id in found
      ensures id !in Selected(after)
    {
      ImageUrlNotSelected(id);
    }
  }

  /** A migrated product is then served from its blob with the chosen type. */
  lemma MigratedImageServed(products: map<nat, Product>, files: map<string, seq<byte>>,
                            extname: string -> string, failing: set<nat>, id: nat)
    requires id in Found(products, files, failing)
    ensures ImageResponse(Migrated(products, files, extname, failing), id)
            == Some((files[FileOf(products[id])], MimeType(extname(FileOf(products[id])))))
  {
  }

  /** Every selected product is counted once, as a success or as an error. */
  lemma CountsCoverSelection(products: map<nat, Product>, files: map<string, seq<byte>>, failing: set<nat>)
    ensures |Found(products, files, failing)| + |Selected(products) - Found(products, files, failing)|
            == |Selected(products)|
  {
    var sel := Selected(products);
    var found := Found(products, files, failing);
    assert sel == found + (sel - found);
  }

  /** Loop bookkeeping: `done` are the selected rows visited so far, and the
      two counters count the found and the not-found ones among them. */
  ghost predicate Counted(selected: set<nat>, found: set<nat>, pending: set<nat>, done: set<nat>,
                          successCount: nat, errorCount: nat)
  {
    && pending <= selected && done == selected - pending
    && successCount == |done * found| && errorCount == |done - found|
  }

  /** Visiting one more row adds it to exactly one of the two counts. */
  lemma CountStep(selected: set<nat>, found: set<nat>, pending: set<nat>, done: set<nat>,
                  successCount: nat, errorCount: nat, id: nat)
    requires Counted(selected, found, pending, done, successCount, errorCount) && id in pending
    ensures id !in done
    ensures id in found ==> Counted(selected, found, pending - {id}, done + {id}, successCount + 1, errorCount)
    ensures id !in found ==> Counted(selected, found, pending - {id}, done + {id}, successCount, errorCount + 1)
  {
    assert done + {id} == selected - (pending - {id});
    if id in found {
      assert (done + {id}) * found == (done * found) + {id};
      assert (done + {id}) - found == done - found;
    } else {
      assert (done + {id}) - found == (done - found) + {id};
      assert (done + {id}) * found == done * found;
    }
  }

  /** With nothing pending, the counters count all found and all other rows. */
  lemma CountedAll(selected: set<nat>, found: set<nat>, done: set<nat>, successCount: nat, errorCount: nat)
    requires Counted(selected, found, {}, done, successCount, errorCount) && found <= selected
    ensures successCount == |found| && errorCount == |selected - found|
  {
    assert done * found == found;
  }

  /** The table after the rows in `done` have been visited: the found ones
      among them are migrated, and every other row is as it was. */
  ghost predicate MigratedSoFar(snapshot: map<nat, Product>, products: map<nat, Product>,
                                files: map<string, seq<byte>>, extname: string -> string,
                                failing: set<nat>, done: set<nat>)
  {
    && products.Keys == snapshot.Keys
    && forall id :: id in snapshot ==>
         products[id]
         == if id in done && id in Found(snapshot, files, failing) then MigrateOne(snapshot[id], id, files, extname)
            else snapshot[id]
  }

  /** Visiting one more selected row: migrate it if it is found, else leave it. */
  lemma MigratedSoFarStep(snapshot: map<nat, Product>, products: map<nat, Product>,
                          files: map<string, seq<byte>>, extname: string -> string,
                          failing: set<nat>, done: set<nat>, id: nat)
    requires MigratedSoFar(snapshot, products, files, extname, failing, done)
    requires id in Selected(snapshot) && id !in done
    ensures id in Found(snapshot, files, failing) <==> FileOf(snapshot[id]) in files && id !in failing
    ensures id in Found(snapshot, files, failing) ==>
              MigratedSoFar(snapshot, products[id := MigrateOne(snapshot[id], id, files, extname)],
                            files, extname, failing, done + {id})
    ensures id !in Found(snapshot, files, failing) ==>
              MigratedSoFar(snapshot, products, files, extname, failing, done + {id})
  {
  }

  /** Once every selected row has been visited, the table is `Migrated`. */
  lemma LoopEndIsMigrated(snapshot: map<nat, Product>, products: map<nat, Product>, files: map<string, seq<byte>>,
                          extname: string -> string, failing: set<nat>)
    requires MigratedSoFar(snapshot, products, files, extname, failing, Selected(snapshot))
    ensures products == Migrated(snapshot, files, extname, failing)
  {
  }

  /** The loop over the selected rows, on the rows the SELECT returned. The
      SELECT has no ORDER BY, so the rows are taken in an unspecified order;
      each one is either migrated (its file exists and nothing throws) or
      counted as an error and left alone. */
  method MigrateRows(snapshot: map<nat, Product>, files: map<string, seq<byte>>, extname: string -> string,
                     failing: set<nat>)
    returns (products: map<nat, Product>, successCount: nat, errorCount: nat)
    ensures products == Migrated(snapshot, files, extname, failing)
    ensures successCount == |Found(snapshot, files, failing)|
    ensures errorCount == |Selected(snapshot) - Found(snapshot, files, failing)|
  {
    var selected := Selected(snapshot);
    var found := Found(snapshot, files, failing);
    products := snapshot;
    var pending := selected;
    ghost var done: set<nat> := {};
    successCount, errorCount := 0, 0;
    while pending != {}
      invariant Counted(selected, found, pending, done, successCount, errorCount)
      invariant MigratedSoFar(snapshot, products, files, extname, failing, done)
      decreases pending
    {
      var id :| id in pending;
      CountStep(selected, found, pending, done, successCount, errorCount, id);
      MigratedSoFarStep(snapshot, products, files, extname, failing, done, id);
      var filename := FileOf(snapshot[id]);
      if filename !in files || id in failing {
        errorCount := errorCount + 1;
      } else {
        products := products[id := MigrateOne(snapshot[id], id, files, extname)];
        successCount := successCount + 1;
      }
      pending := pending - {id};
      done := done + {id};
    }
    CountedAll(selected, found, done, successCount, errorCount);
    LoopEndIsMigrated(snapshot, products, files, extname, failing);
  }

  /** `migrateImagesToBlob()`: migrate the selected rows of the products table
      and report how many succeeded and how many failed; nothing else changes. */
  method MigrateImagesToBlob(store: Store, files: map<string, seq<byte>>, extname: string -> string,
                             failing: set<nat>)
    returns (successCount: nat, errorCount: nat)
    requires store.Valid()
    modifies store
    ensures store.Valid()
    ensures store.products == Migrated(old(store.products), files, extname, failing)
    ensures successCount + errorCount == |Selected(old(store.products))|
    ensures successCount == |Found(old(store.products), files, failing)|
    ensures store.orders == old(store.orders) && store.orderItems == old(store.orderItems)
    ensures store.tasks == old(store.tasks)
    ensures store.nextProductId == old(store.nextProductId) && store.nextOrderId == old(store.nextOrderId)
    ensures store.nextTaskId == old(store.nextTaskId)
  {
    var snapshot := store.products;
    var products;
    products, successCount, errorCount := MigrateRows(snapshot, files, extname, failing);
    CountsCoverSelection(snapshot, files, failing);
    assert products.Keys == snapshot.Keys;
    store.products := products;
  }
}
