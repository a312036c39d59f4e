/** The `gcs` package: a Google Cloud Storage object watched through its
    generation and metageneration numbers.

    The package-wide storage client, created lazily under a mutex, is not
    modelled; each operation receives `initErr`, the outcome of making sure the
    client exists (`Some(e)` when the client was nil and `initClient` failed
    with `e`, `None` otherwise). The storage calls `Attrs`, `NewReader` and
    `Close` are function parameters. */
module Gcs {
  import opened Core

  /** The metadata `Attrs` returns that the resource looks at. */
  datatype ObjectAttrs = ObjectAttrs(generation: int64, metageneration: int64, contentType: string)

  datatype Resource = Resource(
    bucket: string,
    prefix: string,
    lastMetageneration: int64,
    lastGeneration: int64,
    contentType: string)

  /** `Resource{}`. */
  const Zero := Resource("", "", 0, 0, "")

  /** strings.Index(s, string(c)): the index of the first `c` in `s`, or -1. */
  function IndexOf(s: string, c: char): (r: int)
    ensures -1 <= r < |s|
    ensures r == -1 <==> forall j :: 0 <= j < |s| ==> s[j] != c
    ensures r >= 0 ==> s[r] == c && forall j :: 0 <= j < r ==> s[j] != c
  {
    if s == [] then -1
    else if s[0] == c then 0
    else
      var r := IndexOf(s[1..], c);
      if r == -1 then -1 else r + 1
  }

  /** NewResource: the address is split at its first '/' into a bucket and an
      object prefix, and the fingerprint starts at zero. */
  function NewResource(path: string, initErr: Option<Error>): (r: (Resource, Option<Error>))
    ensures initErr.Some? ==> r == (Zero, initErr)
    ensures initErr.None? ==> r.1 == None
    ensures initErr.None? ==>
      r.0.lastGeneration == 0 && r.0.lastMetageneration == 0 && r.0.contentType == ""
  {
    if initErr.Some? then (Zero, initErr)
    else
      var i := IndexOf(path, '/');
      var bucket := if i > 0 then path[..i] else path;
      var blob := if i < |path| - 1 && i > 0 then path[i + 1..] else "";
      (Resource(bucket, blob, 0, 0, ""), None)
  }

  /** Without a '/', the whole address is the bucket and the prefix is empty. */
  lemma SplitWithoutSlash(path: string)
    requires forall j :: 0 <= j < |path| ==> path[j] != '/'
    ensures NewResource(path, None).0.bucket == path
    ensures NewResource(path, None).0.prefix == ""
  {
  }

  /** With the first '/' at index i > 0, the bucket is what comes before it and
      the prefix what comes after it, which is empty for a trailing '/' and may
      hold further '/' characters otherwise. Bucket, '/' and prefix put back
      together give the address. */
  lemma SplitAtFirstSlash(path: string, i: nat)
    requires 0 < i < |path| && path[i] == '/'
    requires forall j :: 0 <= j < i ==> path[j] != '/'
    ensures NewResource(path, None).0.bucket == path[..i]
    ensures NewResource(path, None).0.prefix == path[i + 1..]
    ensures NewResource(path, None).0.bucket + "/" + NewResource(path, None).0.prefix == path
  {
    assert IndexOf(path, '/') == i;
    var r := NewResource(path, None).0;
    assert r.bucket + "/" + r.prefix == path[..i] + [path[i]] + path[i + 1..];
  }

  /** A leading '/' fails both `i > 0` guards: the bucket is the whole address
      and the prefix is empty. */
  lemma SplitAtLeadingSlash(path: string)
    requires |path| > 0 && path[0] == '/'
    ensures NewResource(path, None).0.bucket == path
    ensures NewResource(path, None).0.prefix == ""
  {
    assert IndexOf(path, '/') == 0;
  }

  /** The object's version differs from the one the resource holds. */
  predicate Stale(r: Resource, attrs: ObjectAttrs) {
    attrs.metageneration != r.lastMetageneration || attrs.generation != r.lastGeneration
  }

  /** The resource once it has recorded the object's version and content type. */
  function Observe(r: Resource, attrs: ObjectAttrs): (o: Resource)
    ensures o.bucket == r.bucket && o.prefix == r.prefix
    ensures !Stale(o, attrs)
    ensures o.contentType == attrs.contentType
  {
    r.(contentType := attrs.contentType,
       lastMetageneration := attrs.metageneration,
       lastGeneration := attrs.generation)
  }

  /** Recording a version changes the resource's fingerprint exactly when that
      version is stale; recording it again changes nothing. */
  lemma ObserveSettles(r: Resource, attrs: ObjectAttrs)
    ensures Stale(r, attrs) <==>
      (Observe(r, attrs).lastGeneration, Observe(r, attrs).lastMetageneration)
        != (r.lastGeneration, r.lastMetageneration)
    ensures Observe(Observe(r, attrs), attrs) == Observe(r, attrs)
  {
  }

  /** A new resource reports a change exactly when the object's generation or
      metageneration is not zero. */
  lemma NewResourceStale(path: string, attrs: ObjectAttrs)
    ensures Stale(NewResource(path, None).0, attrs) <==>
      attrs.generation != 0 || attrs.metageneration != 0
  {
  }

  /** Poll, with its value receiver: the assignments land on the method's own
      copy `receiver`, so the caller's resource is not changed and the
      fingerprint it holds stays the one it had before. */
  method Poll(r: Resource, initErr: Option<Error>, attrs: (string, string) -> Result<ObjectAttrs>)
    returns (changed: bool, err: Option<Error>)
    ensures initErr.Some? ==> !changed && err == initErr
    ensures initErr.None? && attrs(r.bucket, r.prefix).Failure? ==>
      !changed && err == Some(attrs(r.bucket, r.prefix).error)
    ensures initErr.None? && attrs(r.bucket, r.prefix).Success? ==> err == None
    ensures changed <==>
      initErr.None? && attrs(r.bucket, r.prefix).Success? && Stale(r, attrs(r.bucket, r.prefix).value)
  {
    var receiver := r;
    if initErr.Some? {
      return false, initErr;
    }
    var a := attrs(receiver.bucket, receiver.prefix);
    if a.Failure? {
      return false, Some(a.error);
    }
    if a.value.metageneration != receiver.lastMetageneration ||
       a.value.generation != receiver.lastGeneration {
      receiver := receiver.(contentType := a.value.contentType);
      receiver := receiver.(lastMetageneration := a.value.metageneration);
      receiver := receiver.(lastGeneration := a.value.generation);
      assert receiver == Observe(r, a.value);
      return true, None;
    }
    return false, None;
  }

  /** Refresh: the callbacks one call makes, in order. A failed client
      initialisation and a failed NewReader each reach the error handler once
      (the latter from a goroutine); an opened reader goes to the update
      function once, and the deferred close then always calls the error
      handler with the result of Close, nil included. */
  method Refresh(
    r: Resource,
    initErr: Option<Error>,
    newReader: (string, string) -> Result<Reader>,
    close: Reader -> Option<Error>)
    returns (events: seq<Event>)
    ensures initErr.Some? ==> events == [HandleError(initErr)]
    ensures initErr.None? && newReader(r.bucket, r.prefix).Failure? ==>
      events == [HandleError(Some(newReader(r.bucket, r.prefix).error))]
    ensures initErr.None? && newReader(r.bucket, r.prefix).Success? ==>
      var reader := newReader(r.bucket, r.prefix).value;
      events == [Update(reader), HandleError(close(reader))]
    ensures Updates(events) == (if initErr.None? && newReader(r.bucket, r.prefix).Success? then 1 else 0)
    ensures ErrorCalls(events) == 1
  {
    events := [];
    if initErr.Some? {
      events := events + [HandleError(initErr)];
      return;
    }
    var reading := newReader(r.bucket, r.prefix);
    if reading.Failure? {
      // `go errorHandler(err)`; the deferred close sees a nil reader
      events := events + [HandleError(Some(reading.error))];
      return;
    }
    events := events + [Update(reading.value)];
    // deferred: the reader is not nil
    events := events + [HandleError(close(reading.value))];
  }

  /** The same object polled twice through the value receiver: the second poll
      still reports a change, although nothing happened in between. The
      resource is the one NewResource makes for "google-bucket/one". */
  method RepollAsWritten() returns (first: bool, second: bool)
    ensures first && second
  {
    var r := NewResource("google-bucket/one", None).0;
    var attrs := (b: string, o: string) => Success(ObjectAttrs(1, 1, "text/plain"));
    var e1, e2;
    first, e1 := Poll(r, None, attrs);
    second, e2 := Poll(r, None, attrs);
  }

  /** A resource reached through a pointer, as a pointer receiver would have
      it: Poll records the version it saw. */
  class ResourceRef {
    var value: Resource

    constructor (r: Resource)
      ensures value == r
    {
      value := r;
    }

    method Poll(initErr: Option<Error>, attrs: (string, string) -> Result<ObjectAttrs>)
      returns (changed: bool, err: Option<Error>)
      modifies this
      ensures var a := attrs(old(value).bucket, old(value).prefix);
        changed <==> initErr.None? && a.Success? && Stale(old(value), a.value)
      ensures var a := attrs(old(value).bucket, old(value).prefix);
        err == if initErr.Some? then initErr else if a.Failure? then Some(a.error) else None
      ensures value == if changed then Observe(old(value), attrs(old(value).bucket, old(value).prefix).value)
                       else old(value)
    {
      if initErr.Some? {
        return false, initErr;
      }
      var a := attrs(value.bucket, value.prefix);
      if a.Failure? {
        return false, Some(a.error);
      }
      if Stale(value, a.value) {
        value := Observe(value, a.value);
        return true, None;
      }
      return false, None;
    }
  }

  /** Through the pointer, the second poll of an unchanged object reports no
      change. */
  method RepollCorrected() returns (first: bool, second: bool)
    ensures first && !second
  {
    var r := new ResourceRef(NewResource("google-bucket/one", None).0);
    var attrs := (b: string, o: string) => Success(ObjectAttrs(1, 1, "text/plain"));
    var e1, e2;
    first, e1 := r.Poll(None, attrs);
    second, e2 := r.Poll(None, attrs);
  }
}
