/** The `file` package: a local file watched through its size and
    modification time.

    `os.Stat`, `os.Open` and `(*os.File).Close` are function parameters: `stat`
    and `open` map a path to what the call returns for it, `close` maps an
    open file to the error its Close returns. */
module File {
  import opened Core

  /** What the resource reads from an `os.FileInfo`. */
  datatype FileInfo = FileInfo(size: int64, modTime: Time)

  datatype Resource = Resource(path: string, lastUpdate: Time, lastSize: int64)

  /** `Resource{}`. */
  const Zero := Resource("", ZeroTime, 0)

  /** NewResource: on success the path is kept as given and the fingerprint is
      the size and modification time the stat reported, with a nil error; a
      failed stat gives the zero resource and its error. */
  function NewResource(file: string, stat: string -> Result<FileInfo>): (r: (Resource, Option<Error>))
    ensures r.1.Some? <==> stat(file).Failure?
    ensures stat(file).Failure? ==> r == (Zero, Some(stat(file).error))
    ensures stat(file).Success? ==>
      r.0.path == file &&
      r.0.lastUpdate == stat(file).value.modTime &&
      r.0.lastSize == stat(file).value.size
  {
    match stat(file)
    case Failure(err) => (Zero, Some(err))
    case Success(info) => (Resource(file, info.modTime, info.size), None)
  }

  /** The file's size or modification time differs from the one the resource
      holds. */
  predicate Stale(r: Resource, info: FileInfo) {
    info.size != r.lastSize || info.modTime != r.lastUpdate
  }

  /** The resource once it has recorded the file's size and modification time. */
  function Observe(r: Resource, info: FileInfo): (o: Resource)
    ensures o.path == r.path
    ensures !Stale(o, info)
  {
    r.(lastSize := info.size, lastUpdate := info.modTime)
  }

  /** Recording a fingerprint changes the resource exactly when the file is
      stale with respect to it. */
  lemma ObserveSettles(r: Resource, info: FileInfo)
    ensures Stale(r, info) <==> Observe(r, info) != r
  {
    if Stale(r, info) {
      assert Observe(r, info).lastSize != r.lastSize || Observe(r, info).lastUpdate != r.lastUpdate;
    }
  }

  /** A resource just built from a stat is not stale against that same stat,
      so polling it right away reports no change. */
  lemma NewResourceFresh(file: string, stat: string -> Result<FileInfo>)
    requires stat(file).Success?
    ensures NewResource(file, stat).0.path == file
    ensures !Stale(NewResource(file, stat).0, stat(file).value)
  {
  }

  /** A resource with a zero fingerprint, whatever its path, is stale against
      every file whose size is not zero. */
  lemma ZeroStale(r: Resource, info: FileInfo)
    requires r.lastSize == 0 && r.lastUpdate == ZeroTime
    requires info.size != 0
    ensures Stale(r, info)
  {
  }

  /** Poll, with its value receiver: the assignments land on the method's own
      copy `receiver`, so the caller's resource is not changed and the
      fingerprint it holds stays the one it had before. */
  method Poll(r: Resource, stat: string -> Result<FileInfo>) returns (changed: bool, err: Option<Error>)
    ensures stat(r.path).Failure? ==> !changed && err == Some(stat(r.path).error)
    ensures stat(r.path).Success? ==> err == None
    ensures changed <==> stat(r.path).Success? && Stale(r, stat(r.path).value)
  {
    var receiver := r;
    var s := stat(receiver.path);
    if s.Failure? {
      return false, Some(s.error);
    }
    if s.value.size != receiver.lastSize || s.value.modTime != receiver.lastUpdate {
      receiver := receiver.(lastSize := s.value.size);
      receiver := receiver.(lastUpdate := s.value.modTime);
      assert receiver == Observe(r, s.value);
      return true, None;
    }
    return false, None;
  }

  /** Refresh: the callbacks one call makes, in order. A failed open reaches
      the error handler once with its error; an opened file goes to the update
      function once, and the deferred close then calls the error handler only
      when Close fails. */
  method Refresh(r: Resource, open: string -> Result<Reader>, close: Reader -> Option<Error>)
    returns (events: seq<Event>)
    ensures open(r.path).Failure? ==> events == [HandleError(Some(open(r.path).error))]
    ensures open(r.path).Success? ==>
      var f := open(r.path).value;
      events == [Update(f)] + (if close(f).Some? then [HandleError(close(f))] else [])
    ensures Updates(events) == (if open(r.path).Success? then 1 else 0)
    ensures ErrorCalls(events) <= 1
    ensures forall k :: 0 <= k < |events| && events[k].HandleError? ==> events[k].err.Some?
  {
    events := [];
    var f := open(r.path);
    if f.Failure? {
      events := events + [HandleError(Some(f.error))];
      return;
    }
    events := events + [Update(f.value)];
    // deferred
    var e := close(f.value);
    if e.Some? {
      events := events + [HandleError(e)];
    }
  }

  /** The test of resource/file/update_test.go polled twice through the value
      receiver: a zero resource over a file holding "test" reports a change,
      and the second poll reports it again although the file did not change. */
  method RepollAsWritten() returns (first: bool, second: bool)
    ensures first && second
  {
    var r := Resource("test-file", ZeroTime, 0);
    var stat := (p: string) => Success(FileInfo(4, Time(1)));
    var e1, e2;
    first, e1 := Poll(r, stat);
    second, e2 := Poll(r, stat);
  }

  /** A resource reached through a pointer, as a pointer receiver would have
      it: Poll records the fingerprint it saw. */
  class ResourceRef {
    var value: Resource

    constructor (r: Resource)
      ensures value == r
    {
      value := r;
    }

    method Poll(stat: string -> Result<FileInfo>) returns (changed: bool, err: Option<Error>)
      modifies this
      ensures var s := stat(old(value).path);
        changed <==> s.Success? && Stale(old(value), s.value)
      ensures var s := stat(old(value).path);
        err == if s.Failure? then Some(s.error) else None
      ensures value == if changed then Observe(old(value), stat(old(value).path).value) else old(value)
    {
      var s := stat(value.path);
      if s.Failure? {
        return false, Some(s.error);
      }
      if Stale(value, s.value) {
        value := Observe(value, s.value);
        return true, None;
      }
      return false, None;
    }
  }

  /** Through the pointer, the same test reports the change once: the second
      poll of the unchanged file reports nothing. */
  method RepollCorrected() returns (first: bool, second: bool)
    ensures first && !second
  {
    var r := new ResourceRef(Resource("test-file", ZeroTime, 0));
    var stat := (p: string) => Success(FileInfo(4, Time(1)));
    var e1, e2;
    first, e1 := r.Poll(stat);
    second, e2 := r.Poll(stat);
  }
}
