/** What the operations of the credential repository do to the map of credentials and to the cache
    directory (src/api/auks/auks_cred_repo.c), as functions on values. */
module RepoSpec {
  import opened Text
  import opened Creds

  /** AUKS_CRED_FILE_MAX_LENGTH */
  const FILE_MAX := 128

  /** An entry of the cache directory; extraction from an `Unreadable` one fails. */
  datatype CacheFile = Stored(cred: Cred) | Unreadable

  datatype Status = Success | UidToStr | UidNotFound | ReadOnly | CcacheBuild | UnlinkFailed | GetFailed

  datatype Repo = Repo(creds: map<Uid, Cred>, disk: map<string, CacheFile>, readOnly: bool, cachedir: string)

  /** `%d` of the uid, so uids from 2^31 on print as negative numbers. */
  function FileName(u: Uid): string { "aukscc_" + SignedDecimal(ToInt32(u)) }

  /** `snprintf(filename, AUKS_CRED_FILE_MAX_LENGTH, "%s/…")` does not truncate. */
  predicate Fits(cachedir: string, name: string) { |cachedir| + 1 + |name| < FILE_MAX }

  /** The new credential replaces the old one. */
  predicate Replaces(new_: Cred, old_: Cred) {
    new_.renewTill > old_.renewTill || (new_.endtime >= old_.endtime && new_.renewTill == old_.renewTill)
  }

  predicate Expired(c: Cred, now: int) {
    c.endtime < now || (c.renewTill > 0 && c.renewTill < now)
  }

  function RemoveSpec(r: Repo, u: Uid): (Repo, Status) {
    if r.readOnly then (r, ReadOnly)
    else if u !in r.creds then (r, UidNotFound)
    else
      var r := r.(creds := r.creds - {u});
      if !Fits(r.cachedir, FileName(u)) then (r, CcacheBuild)
      else if FileName(u) in r.disk then (r.(disk := r.disk - {FileName(u)}), Success)
      else (r, UnlinkFailed)
  }

  function AddSpec(r: Repo, c: Cred): (Repo, Status) {
    if c.uid in r.creds && !Replaces(c, r.creds[c.uid]) then (r, Success)
    else
      var r := if c.uid in r.creds then RemoveSpec(r, c.uid).0 else r;
      var r := r.(creds := r.creds[c.uid := c]);
      if r.readOnly then (r, Success)
      else if !Fits(r.cachedir, FileName(c.uid)) then (r, CcacheBuild)
      else (r.(disk := r.disk[FileName(c.uid) := Stored(c)]), Success)
  }

  /** The status of the last step, the removals that succeeded, and the repository. */
  datatype Cleaning = Cleaning(repo: Repo, status: Status, removed: nat)

  /** Visiting the uids `us` one after the other. */
  function CleanSpec(r: Repo, us: seq<Uid>, now: int): Cleaning {
    if us == [] then Cleaning(r, Success, 0)
    else
      var k := CleanSpec(r, us[..|us| - 1], now);
      var u := us[|us| - 1];
      if u in k.repo.creds && Expired(k.repo.creds[u], now) then
        var (r', status) := RemoveSpec(k.repo, u);
        Cleaning(r', status, k.removed + if status == Success then 1 else 0)
      else
        Cleaning(k.repo, Success, k.removed)
  }

  /** `us` lists every uid of the map exactly once. */
  ghost predicate Lists(us: seq<Uid>, creds: map<Uid, Cred>) {
    && (forall i, j :: 0 <= i < j < |us| ==> us[i] != us[j])
    && (forall u :: u in us <==> u in creds)
  }

  predicate IsCacheName(name: string) { |name| >= 7 && name[..7] == "aukscc_" }

  /** Reading the directory entries `names` one after the other. */
  function LoadSpec(r: Repo, names: seq<string>): Repo {
    if names == [] then r
    else
      var r := LoadSpec(r, names[..|names| - 1]);
      var name := names[|names| - 1];
      if IsCacheName(name) && Fits(r.cachedir, name) && name in r.disk && r.disk[name].Stored? then
        AddSpec(r, r.disk[name].cred).0
      else r
  }
}
