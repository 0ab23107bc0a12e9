/** What readers are answered: which bytes a download reads, which release a number shows. */
module Downloads {
  import opened Types
  import opened State

  datatype Download = LocalPath(f: Id) | Object(key: Id, versionId: Option<string>)

  /** The record of a file, working or frozen: the two collections the view joins. */
  function Viewed(w: World, f: Id): File
    requires f in w.files || f in w.frozenFiles
  {
    if f in w.files then w.files[f] else w.frozenFiles[f]
  }

  /** A frozen file reads the bytes of its origin. */
  function BytesId(w: World, f: Id): Id
    requires f in w.files || f in w.frozenFiles
  {
    if f in w.files || w.frozenFiles[f].origin.None? then f else w.frozenFiles[f].origin.value
  }

  /** Version records the lookup may hit: under the file's own id or its origin's. */
  predicate LooksUp(w: World, f: Id, num: int, v: Id)
    requires f in w.files || f in w.frozenFiles
  {
    Records(w.versions, v, f, num) || Records(w.versions, v, BytesId(w, f), num)
  }

  /** `r` is a possible answer to the download of `f`, at a version or without one. */
  ghost predicate Answer(w: World, f: Id, version: Option<int>, r: Outcome<Download>) {
    if f !in w.files && f !in w.frozenFiles then r == Err(404)
    else if Viewed(w, f).storage == Local then r == Ok(LocalPath(f))
    else if version.None? then r == Ok(Object(BytesId(w, f), None))
    else if exists v :: LooksUp(w, f, version.value, v) then
      exists v :: LooksUp(w, f, version.value, v) &&
                  r == Ok(Object(BytesId(w, f), Some(w.versions[v].versionId)))
    else r == Err(404)
  }

  /** `r` is a possible answer to the request for version `number` of dataset `d`: a release of that number
      unless it is deleted. */
  ghost predicate Shown(releases: map<Id, Release>, d: Id, number: int, r: Outcome<Id>) {
    if exists fd :: IsVersion(releases, fd, d, number) then
      exists fd :: IsVersion(releases, fd, d, number) && r == if releases[fd].deleted then Err(404) else Ok(fd)
    else r == Err(404)
  }
}
