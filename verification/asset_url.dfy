/** `Asset::publicUrl`: the address a page uses for a piece of media. */
module AssetUrl {
  import opened Wrappers
  import opened Php
  import opened Schema

  /** A nullable string column that PHP's `&&` reads as true. */
  predicate Filled(o: Option<string>) {
    o.Some? && TruthyString(o.value)
  }

  /** The public URL of an asset. `diskUrl(disk, path)` stands for the storage
      disk's URL generator, which the model does not interpret. */
  function PublicUrl(a: Asset, diskUrl: (string, string) -> string): (r: Option<string>)
    ensures a.storage == STORAGE_URL ==> r == a.url
    ensures a.storage == STORAGE_LOCAL && Filled(a.disk) && Filled(a.path) ==> r == Some(diskUrl(a.disk.value, a.path.value))
    ensures a.storage == STORAGE_LOCAL && !(Filled(a.disk) && Filled(a.path)) ==> r.None?
    ensures a.storage != STORAGE_URL && a.storage != STORAGE_LOCAL ==> r.None?
  {
    if a.storage == STORAGE_URL then a.url
    else if a.storage == STORAGE_LOCAL && Filled(a.disk) && Filled(a.path) then Some(diskUrl(a.disk.value, a.path.value))
    else None
  }

  /** Two assets that agree on storage, url, disk and path have the same URL,
      whatever their invitation, kind, category or alt text. */
  lemma PublicUrlDependsOnLocation(a: Asset, b: Asset, diskUrl: (string, string) -> string)
    requires a.storage == b.storage && a.url == b.url && a.disk == b.disk && a.path == b.path
    ensures PublicUrl(a, diskUrl) == PublicUrl(b, diskUrl)
  {
  }

  /** A URL is produced only for a "url" asset with a stored url, or for a
      local asset with a disk and a path. */
  lemma PublicUrlSomeIff(a: Asset, diskUrl: (string, string) -> string)
    ensures PublicUrl(a, diskUrl).Some? <==>
              (a.storage == STORAGE_URL && a.url.Some?)
              || (a.storage == STORAGE_LOCAL && Filled(a.disk) && Filled(a.path))
  {
  }

  /** Every asset the reconciler or an upload writes (local, on the public disk,
      with a non-empty path) has a URL on the public disk. */
  lemma LocalUploadHasUrl(a: Asset, diskUrl: (string, string) -> string)
    requires a.storage == STORAGE_LOCAL && a.disk == Some(DISK_PUBLIC) && a.path.Some? && TruthyString(a.path.value)
    ensures PublicUrl(a, diskUrl) == Some(diskUrl(DISK_PUBLIC, a.path.value))
  {
  }
}
