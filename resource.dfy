/** The `resource` package: turning an address string into a scheme tag and a
    remainder (`getscheme`), stripping leading slashes, and dispatching on the
    scheme to the constructor of a concrete resource (`CreateResource`).

    Go indexes the address by byte; here it is a sequence of characters. Every
    character the scan reacts to is ASCII, so the two agree on where the scan
    stops and where the address is cut. The path separator is fixed to '/'. */
module Resource {
  import opened Core
  import Gcs

  /** `os.PathSeparator` on every platform but Windows. */
  const PathSeparator: char := '/'

  predicate IsLetter(c: char) {
    'a' <= c <= 'z' || 'A' <= c <= 'Z'
  }

  /** Characters that may follow the first letter of a scheme. */
  predicate IsSchemeTail(c: char) {
    '0' <= c <= '9' || c == '+' || c == '-'
  }

  /** The scan moves past index `i`: a letter, or a digit, '+' or '-' after the
      first position. */
  predicate Continues(s: string, i: nat)
    requires i < |s|
  {
    IsLetter(s[i]) || (i > 0 && IsSchemeTail(s[i]))
  }

  /** The scan moves past every index below `k`. */
  predicate ScansTo(s: string, k: nat)
    requires k <= |s|
  {
    forall j :: 0 <= j < k ==> Continues(s, j)
  }

  /** The index at which the scan stops, starting from `i`: the first index at
      or after `i` that the scan does not move past, or `|s|`. */
  function FirstStopFrom(s: string, i: nat): (k: nat)
    requires i <= |s|
    ensures i <= k <= |s|
    ensures forall j :: i <= j < k ==> Continues(s, j)
    ensures k < |s| ==> !Continues(s, k)
    decreases |s| - i
  {
    if i == |s| || !Continues(s, i) then i else FirstStopFrom(s, i + 1)
  }

  function FirstStop(s: string): (k: nat)
    ensures k <= |s| && ScansTo(s, k)
    ensures k < |s| ==> !Continues(s, k)
  {
    FirstStopFrom(s, 0)
  }

  /** The stopping index is the only index the scan reaches and does not pass. */
  lemma FirstStopUnique(s: string, k: nat)
    requires k <= |s| && ScansTo(s, k)
    requires k < |s| ==> !Continues(s, k)
    ensures FirstStop(s) == k
  {
  }

  /** stripPrecedingSlashes: removes leading '/' characters one at a time. The
      result is a suffix of the input that does not start with '/'. */
  function StripPrecedingSlashes(s: string): (r: string)
    ensures |r| <= |s| && r == s[|s| - |r|..]
    ensures r == [] || r[0] != '/'
  {
    if |s| > 0 && s[0] == '/' then StripPrecedingSlashes(s[1..]) else s
  }

  /** Everything stripping removes is '/': the result is the input less its
      whole run of leading slashes. */
  lemma {:induction false} StripRemovesSlashes(s: string)
    ensures forall j :: 0 <= j < |s| - |StripPrecedingSlashes(s)| ==> s[j] == '/'
  {
    if |s| > 0 && s[0] == '/' {
      StripRemovesSlashes(s[1..]);
      assert StripPrecedingSlashes(s) == StripPrecedingSlashes(s[1..]);
      forall j | 0 <= j < |s| - |StripPrecedingSlashes(s)|
        ensures s[j] == '/'
      {
        if j > 0 {
          assert s[j] == s[1..][j - 1];
        }
      }
    }
  }

  /** A string that does not start with '/' is left alone. */
  lemma StripKeepsUnslashed(s: string)
    requires s == [] || s[0] != '/'
    ensures StripPrecedingSlashes(s) == s
  {
  }

  /** Stripping twice is stripping once. */
  lemma {:induction false} StripIdempotent(s: string)
    ensures StripPrecedingSlashes(StripPrecedingSlashes(s)) == StripPrecedingSlashes(s)
  {
    var r := StripPrecedingSlashes(s);
    StripKeepsUnslashed(r);
  }

  /** Any number of leading slashes strip to the same remainder. */
  lemma {:induction false} StripSlashPrefix(n: nat, s: string)
    ensures StripPrecedingSlashes(seq(n, _ => '/') + s) == StripPrecedingSlashes(s)
  {
    var t := seq(n, _ => '/') + s;
    if n == 0 {
      assert t == s;
    } else {
      assert t[0] == '/';
      assert t[1..] == seq(n - 1, _ => '/') + s;
      StripSlashPrefix(n - 1, s);
    }
  }

  /** The outcome of `getscheme`, decided by the character at which the scan
      stops. The triple is Go's `(scheme, path, err)`. */
  function Locate(s: string): (r: (string, string, Option<Error>))
    ensures r.2 == None || r.2 == Some(MissingProtocol)
    ensures |r.1| <= |s| && r.1 == s[|s| - |r.1|..]
  {
    var k := FirstStop(s);
    if k == |s| then ("", StripPrecedingSlashes(s), None)
    else if IsSchemeTail(s[k]) then ("", StripPrecedingSlashes(s), None)
    else if s[k] == ':' then
      if k == 0 then ("", "", Some(MissingProtocol))
      else (s[..k], StripPrecedingSlashes(s[k + 1..]), None)
    else if s[k] == PathSeparator || s[k] == '.' then ("file", s, None)
    else ("", s, None)
  }

  /** getscheme: the left-to-right scan with its early returns. */
  method GetScheme(rawurl: string) returns (scheme: string, path: string, err: Option<Error>)
    ensures (scheme, path, err) == Locate(rawurl)
  {
    var i := 0;
    while i < |rawurl|
      invariant 0 <= i <= |rawurl|
      invariant ScansTo(rawurl, i)
    {
      var c := rawurl[i];
      if IsLetter(c) {
        // a letter continues the scheme
      } else if IsSchemeTail(c) {
        if i == 0 {
          FirstStopUnique(rawurl, 0);
          return "", StripPrecedingSlashes(rawurl), None;
        }
      } else if c == ':' {
        FirstStopUnique(rawurl, i);
        if i == 0 {
          return "", "", Some(MissingProtocol);
        }
        return rawurl[..i], StripPrecedingSlashes(rawurl[i + 1..]), None;
      } else if c == PathSeparator || c == '.' {
        FirstStopUnique(rawurl, i);
        return "file", rawurl, None;
      } else {
        FirstStopUnique(rawurl, i);
        return "", rawurl, None;
      }
      i := i + 1;
    }
    FirstStopUnique(rawurl, i);
    return "", StripPrecedingSlashes(rawurl), None;
  }

  /** An error is returned exactly when the address starts with ':', and it is
      always the missing-protocol error with an empty scheme and path; the
      malformed-protocol error is never returned. */
  lemma LocateError(s: string)
    ensures Locate(s).2.Some? <==> |s| > 0 && s[0] == ':'
    ensures Locate(s).2.Some? ==> Locate(s) == ("", "", Some(MissingProtocol))
    ensures Locate(s).2 != Some(MalformedProtocol)
  {
    if |s| > 0 && s[0] == ':' {
      FirstStopUnique(s, 0);
    }
  }

  /** A ':' reached at index i > 0 splits the address into the scheme before it
      and the slash-stripped text after it. */
  lemma LocateColon(s: string, i: nat)
    requires 0 < i < |s| && s[i] == ':' && ScansTo(s, i)
    ensures Locate(s) == (s[..i], StripPrecedingSlashes(s[i + 1..]), None)
  {
    FirstStopUnique(s, i);
  }

  /** A '/' or '.' reached before any ':' makes the whole address a file path. */
  lemma LocatePath(s: string, i: nat)
    requires i < |s| && (s[i] == '/' || s[i] == '.') && ScansTo(s, i)
    ensures Locate(s) == ("file", s, None)
  {
    FirstStopUnique(s, i);
  }

  /** Any other stopping character (a digit, '+' or '-' in first position
      included) leaves the address unchanged with no scheme. */
  lemma LocateNoScheme(s: string, i: nat)
    requires i < |s| && ScansTo(s, i) && !Continues(s, i)
    requires s[i] != ':' && s[i] != '/' && s[i] != '.'
    ensures Locate(s) == ("", s, None)
  {
    FirstStopUnique(s, i);
    if i > 0 {
      assert Continues(s, 0);
    }
    StripKeepsUnslashed(s);
  }

  /** An address the scan runs through entirely has no scheme; its remainder is
      the slash-stripped address, which is the address itself. */
  lemma LocateNoStop(s: string)
    requires ScansTo(s, |s|)
    ensures Locate(s) == ("", StripPrecedingSlashes(s), None)
    ensures StripPrecedingSlashes(s) == s
  {
    FirstStopUnique(s, |s|);
    if |s| > 0 {
      assert Continues(s, 0);
    }
    StripKeepsUnslashed(s);
  }

  /** A well-formed scheme: a letter followed by letters, digits, '+' and '-'. */
  predicate IsScheme(scheme: string) {
    |scheme| > 0 && IsLetter(scheme[0]) &&
    forall j :: 0 <= j < |scheme| ==> IsLetter(scheme[j]) || IsSchemeTail(scheme[j])
  }

  /** A returned scheme other than "" and "file" is well formed. */
  lemma LocateSchemeShape(s: string)
    ensures var scheme := Locate(s).0;
      scheme != "" && scheme != "file" ==> IsScheme(scheme)
  {
    var k := FirstStop(s);
    var scheme := Locate(s).0;
    if scheme != "" && scheme != "file" {
      assert scheme == s[..k];
      assert Continues(s, 0);
      forall j | 0 <= j < |scheme|
        ensures IsLetter(scheme[j]) || IsSchemeTail(scheme[j])
      {
        assert Continues(s, j);
      }
    }
  }

  /** A well-formed scheme followed by ':' is returned as the scheme, with the
      slash-stripped rest as the remainder. */
  lemma LocateWellFormed(scheme: string, rest: string)
    requires IsScheme(scheme)
    ensures Locate(scheme + ":" + rest) == (scheme, StripPrecedingSlashes(rest), None)
  {
    var s := scheme + ":" + rest;
    var i := |scheme|;
    assert s[..i] == scheme && s[i] == ':' && s[i + 1..] == rest;
    assert ScansTo(s, i) by {
      forall j | 0 <= j < i
        ensures Continues(s, j)
      {
        assert s[j] == scheme[j];
      }
    }
    LocateColon(s, i);
  }

  /** "gs://google-bucket/test" gives ("gs", "google-bucket/test"): a scheme,
      "://" and a remainder that does not start with '/' give back that scheme
      and that remainder. */
  lemma LocateSchemeAddress(scheme: string, path: string)
    requires IsScheme(scheme)
    requires path == [] || path[0] != '/'
    ensures Locate(scheme + "://" + path) == (scheme, path, None)
  {
    assert scheme + "://" + path == scheme + ":" + (seq(2, _ => '/') + path);
    LocateWellFormed(scheme, seq(2, _ => '/') + path);
    StripSlashPrefix(2, path);
    StripKeepsUnslashed(path);
  }

  /** Which constructor CreateResource hands the address to, and with which
      argument; the constructors themselves belong to the file and gcs
      packages. */
  datatype Created = NewGcs(arg: string) | NewFile(arg: string) | Failed(err: Error)

  /** CreateResource as written: the "gs" case passes the original address. */
  function CreateResource(path: string): (r: Created)
    ensures r.NewGcs? ==> r.arg == path
    ensures r.NewFile? ==> |r.arg| <= |path|
    ensures r.Failed? ==> r.err == UnknownType || r.err == MissingProtocol
  {
    var (scheme, p, e) := Locate(path);
    if e.Some? then Failed(e.value)
    else if scheme == "gs" then NewGcs(path)
    else if scheme == "file" then NewFile(p)
    else Failed(UnknownType)
  }

  /** A locator error is passed through unchanged: exactly the addresses that
      start with ':' fail, and with the missing-protocol error. */
  lemma CreateResourceError(path: string)
    ensures CreateResource(path).Failed? && CreateResource(path).err != UnknownType <==>
      |path| > 0 && path[0] == ':'
    ensures |path| > 0 && path[0] == ':' ==> CreateResource(path) == Failed(MissingProtocol)
  {
    LocateError(path);
  }

  /** A well-formed scheme other than "file" is returned exactly for the
      addresses that start with it and a ':'. */
  lemma LocateSchemePrefix(s: string, scheme: string)
    requires IsScheme(scheme) && scheme != "file"
    ensures Locate(s).0 == scheme <==>
      |s| > |scheme| && s[..|scheme|] == scheme && s[|scheme|] == ':'
  {
    var n := |scheme|;
    if |s| > n && s[..n] == scheme && s[n] == ':' {
      forall j | 0 <= j < n
        ensures Continues(s, j)
      {
        assert s[j] == scheme[j];
      }
      LocateColon(s, n);
    }
    if Locate(s).0 == scheme {
      var k := FirstStop(s);
      assert k < |s| && s[k] == ':' && 0 < k;
      assert s[..k] == scheme;
    }
  }

  /** The GCS constructor is chosen exactly for addresses starting "gs:", and it
      receives the whole address. */
  lemma CreateResourceGcs(path: string)
    ensures CreateResource(path).NewGcs? <==> |path| > 2 && path[..2] == "gs" && path[2] == ':'
    ensures CreateResource(path).NewGcs? ==> CreateResource(path).arg == path
  {
    LocateSchemePrefix(path, "gs");
    LocateError(path);
  }

  /** The file constructor is chosen for "file:" addresses, with the stripped
      remainder, and for addresses whose scan stops at '/' or '.', with the
      whole address. */
  lemma CreateResourceFile(path: string)
    ensures var k := FirstStop(path);
      CreateResource(path).NewFile? <==>
        (|path| > 4 && path[..4] == "file" && path[4] == ':') ||
        (k < |path| && (path[k] == '/' || path[k] == '.'))
    ensures |path| > 4 && path[..4] == "file" && path[4] == ':' ==>
      CreateResource(path) == NewFile(StripPrecedingSlashes(path[5..]))
    ensures var k := FirstStop(path);
      k < |path| && (path[k] == '/' || path[k] == '.') ==> CreateResource(path) == NewFile(path)
  {
    var k := FirstStop(path);
    var prefixed := |path| > 4 && path[..4] == "file" && path[4] == ':';
    if prefixed {
      assert ScansTo(path, 4) by {
        forall j | 0 <= j < 4
          ensures Continues(path, j)
        {
          assert path[j] == "file"[j];
        }
      }
      FirstStopUnique(path, 4);
      LocateColon(path, 4);
      assert CreateResource(path) == NewFile(StripPrecedingSlashes(path[5..]));
    } else if k == |path| {
      LocateNoStop(path);
      assert CreateResource(path) == Failed(UnknownType);
    } else if path[k] == ':' {
      LocateError(path);
      if k > 0 {
        LocateColon(path, k);
        assert path[..k] == "file" ==> k == 4 && prefixed;
        assert !CreateResource(path).NewFile?;
      }
    } else if path[k] == '/' || path[k] == '.' {
      LocatePath(path, k);
      assert CreateResource(path) == NewFile(path);
    } else {
      LocateNoScheme(path, k);
      assert CreateResource(path) == Failed(UnknownType);
    }
  }

  /** Any other well-formed scheme, "http" and "fake" among them, is an unknown
      resource type. */
  lemma CreateResourceUnknown(scheme: string, rest: string)
    requires IsScheme(scheme) && scheme != "gs" && scheme != "file"
    ensures CreateResource(scheme + ":" + rest) == Failed(UnknownType)
  {
    LocateWellFormed(scheme, rest);
  }

  /** An address whose scan stops at none of ':', '/' and '.' ("test-file",
      "1abc", "a b", "_x") is an unknown resource type too. */
  lemma CreateResourceSchemeless(path: string)
    requires var k := FirstStop(path); k == |path| || (path[k] != ':' && path[k] != '/' && path[k] != '.')
    ensures CreateResource(path) == Failed(UnknownType)
  {
    var k := FirstStop(path);
    if k == |path| {
      LocateNoStop(path);
    } else {
      LocateNoScheme(path, k);
    }
  }

  /** CreateResource as evidently intended: the "gs" case passes the remainder,
      which the bucket/prefix split expects. */
  function CreateResourceIntended(path: string): Created
  {
    var (scheme, p, e) := Locate(path);
    if e.Some? then Failed(e.value)
    else if scheme == "gs" then NewGcs(p)
    else if scheme == "file" then NewFile(p)
    else Failed(UnknownType)
  }

  /** As written, every "gs://" address yields a GCS resource whose bucket is
      "gs:" and whose prefix is the rest of the address after "gs:/". */
  lemma GcsBucketAsWritten(path: string)
    requires |path| >= 5 && path[..5] == "gs://"
    ensures CreateResource(path) == NewGcs(path)
    ensures Gcs.NewResource(path, None).0.bucket == "gs:"
    ensures Gcs.NewResource(path, None).0.prefix == path[4..]
  {
    assert path[0] == 'g' && path[1] == 's' && path[2] == ':' && path[3] == '/' by {
      assert path[..5][0] == path[0] && path[..5][1] == path[1];
      assert path[..5][2] == path[2] && path[..5][3] == path[3];
    }
    assert CreateResource(path) == NewGcs(path) by {
      assert path[..2] == "gs";
      CreateResourceGcs(path);
    }
    Gcs.SplitAtFirstSlash(path, 3);
    assert path[..3] == "gs:";
  }

  /** As intended, "gs://bucket/name" yields that bucket and that object name
      as the prefix, for every bucket without '/' and every object name. */
  lemma GcsLocatorIntended(path: string, bucket: string, name: string)
    requires path == "gs://" + bucket + "/" + name
    requires bucket != [] && forall j :: 0 <= j < |bucket| ==> bucket[j] != '/'
    ensures CreateResourceIntended(path) == NewGcs(bucket + "/" + name)
    ensures Gcs.NewResource(bucket + "/" + name, None).0.bucket == bucket
    ensures Gcs.NewResource(bucket + "/" + name, None).0.prefix == name
  {
    var rest := bucket + "/" + name;
    assert CreateResourceIntended(path) == NewGcs(rest) by {
      assert IsScheme("gs") by {
        assert IsLetter("gs"[0]) && IsLetter("gs"[1]);
      }
      assert rest[0] == bucket[0];
      assert path == "gs" + "://" + rest;
      LocateSchemeAddress("gs", rest);
    }
    var i := |bucket|;
    assert rest[i] == '/' && rest[..i] == bucket && rest[i + 1..] == name;
    Gcs.SplitAtFirstSlash(rest, i);
  }
}
