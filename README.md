# go-sprout resources in Dafny

go-sprout watches a data source and hands its new content to a callback when
it changes. A source is a *resource* with two operations:

- `Poll` compares the source's current version fingerprint with the one the
  resource holds.
- `Refresh` opens the source and passes a reader to an update function. Errors
  go to an error handler.

This project models the resource layer of the library:

- the address parser `getscheme` and `stripPrecedingSlashes`, and the factory
  `CreateResource` that dispatches on the scheme (`resource/resource.go`);
- the local-file resource, fingerprinted by size and modification time
  (`resource/file/`);
- the Google Cloud Storage resource, fingerprinted by generation and
  metageneration, with its bucket/prefix split (`resource/gcs/`).

The files and modules follow the Go packages:

- `core.dfy` (module `Core`) holds the shared values:
  - errors, with Go's nil error as `None`;
  - results of I/O calls;
  - `int64`;
  - timestamps, compared only for equality;
  - readers;
  - the callback events a Refresh produces: `Update(reader)` and
    `HandleError(err)`.
- `resource.dfy` (module `Resource`) holds `getscheme` and `CreateResource`:
  - `GetScheme` is the scan loop, proved to compute `Locate`;
  - `Locate` states the outcome by the character at which the scan stops;
  - `CreateResource` returns which constructor receives the address, and with
    which argument: `NewGcs(arg)`, `NewFile(arg)` or `Failed(err)`.
- `file.dfy` (module `File`) and `gcs.dfy` (module `Gcs`) each hold:
  - the `Resource` struct and its `NewResource` constructor;
  - `Poll`, a method on a copy of the receiver, as Go's value receiver gives;
  - `Refresh`, a method that returns the callbacks it makes, in order.

The model takes every I/O result as a parameter. For the file resource these
are `os.Stat`, `os.Open` and `Close`. For the GCS resource they are `Attrs`,
`NewReader`, `Close` and the lazy client initialisation.

The package comment at resource/resource.go:1-9 describes which addresses
make which resource. The code does not always agree with it, and the model
follows the code:

- The comment promises a network resource for `tcp://`, `http://`, `https://`
  and `ftp://`. The code has no network case: these schemes fall to the
  default at resource/resource.go:61-64 and give `UnknownTypeError`
  (`CreateResourceUnknown`).
- The comment promises a file resource for an address starting with `\`. The
  scan tests for `os.PathSeparator`, which is `\` only on Windows. Where the
  separator is `/`, the scan treats `\` like any other stopping character,
  so such an address gives `UnknownTypeError` (`CreateResourceSchemeless`).

Further facts about the code that a reader of the comment might not expect:

- An address whose scan stops at none of `:`, `/` and `.` gets the scheme
  `""`. `"test-file"`, `"1abc"`, `"a b"` and `"_x"` are examples.
  `CreateResource` rejects these addresses as an unknown type. An address
  whose scan stops at `/` or `.`, such as `"abc.txt"` or `"logs/app"`, does
  become a file resource (`CreateResourceFile`).
- A digit, `+` or `-` as the first character yields the scheme `""`. It does
  not yield a file locator.
- The result of a successful parse may be empty: `"gs:"` gives `("gs", "")`.
- Neither `Poll` stores the fingerprint it observed, because both methods have
  value receivers (see Findings).
- The file `Refresh` calls the update function and then, if `Close` fails, the
  error handler, so one call may reach both callbacks. The GCS `Refresh` always
  calls the error handler after the update function, with a nil error when
  `Close` succeeds.

## Model

| member | source | states |
|---|---|---|
| `Resource.FirstStopFrom` | resource/resource.go:70-92 | the scan from index i stops at the first index it cannot move past (a letter always continues; a digit, `+` or `-` continues except at index 0), or at the end |
| `Resource.FirstStop` | resource/resource.go:70-92 | the scan moves past every index before the stopping index and not past the stopping index |
| `Resource.FirstStopUnique` | resource/resource.go:70-92 | the stopping index is the only index that the scan reaches and does not pass |
| `Resource.StripPrecedingSlashes` | resource/resource.go:96-101 | the result is a suffix of the input and does not start with `/` |
| `Resource.StripRemovesSlashes` | resource/resource.go:96-101 | every character removed is `/` |
| `Resource.StripKeepsUnslashed` | resource/resource.go:97-100 | a string that does not start with `/` is returned unchanged |
| `Resource.StripIdempotent` | resource/resource.go:96-101 | stripping twice gives the same result as stripping once |
| `Resource.StripSlashPrefix` | resource/resource.go:96-101 | any number of leading slashes strip to the same remainder, so `"///a/b"` and `"a/b"` agree |
| `Resource.Locate` | resource/resource.go:69-94 | the only error `getscheme` returns is `missingProtocolError`, and the path it returns is always a tail of the address |
| `Resource.GetScheme` | resource/resource.go:69-94 | the loop with its early returns computes `Locate`: the first character the scan stops at decides `(scheme, path, err)` |
| `Resource.LocateError` | resource/resource.go:79-82 | an error comes back exactly when the address starts with `:`; it is `("", "", missingProtocolError)`, and `malformedProtocolError` is never returned |
| `Resource.LocateColon` | resource/resource.go:79-83 | a `:` reached at index i>0 gives scheme `rawurl[:i]` and remainder `rawurl[i+1:]` with its leading slashes stripped |
| `Resource.LocatePath` | resource/resource.go:84-86 | a `/` or `.` reached before any `:` gives `("file", rawurl, nil)`, with the input unchanged |
| `Resource.LocateNoScheme` | resource/resource.go:75-90 | a digit, `+` or `-` at index 0, or any other stopping character, gives `("", rawurl, nil)` |
| `Resource.LocateNoStop` | resource/resource.go:93 | an address the scan passes through entirely gives `("", stripPrecedingSlashes(rawurl), nil)`, which equals the address itself |
| `Resource.LocateSchemeShape` | resource/resource.go:72-83 | a returned scheme other than `""` and `"file"` starts with a letter and holds only letters, digits, `+` and `-` |
| `Resource.LocateWellFormed` | resource/resource.go:79-83 | a well-formed scheme followed by `:` comes back as the scheme, with the slash-stripped rest as the remainder |
| `Resource.LocateSchemeAddress` | resource/resource_test.go:66-77 | `scheme://path`, with a path that does not start with `/`, gives exactly `(scheme, path)`, as in `"gs://google-bucket/test"` and `"http://www.google.com"` |
| `Resource.LocateSchemePrefix` | resource/resource.go:79-83 | a well-formed scheme other than `"file"` is returned exactly for the addresses that start with that scheme followed by `:` |
| `Resource.CreateResource` | resource/resource.go:46-66 | the GCS constructor receives the whole address, the file constructor an argument no longer than the address, and a failure is `UnknownTypeError` or `missingProtocolError` |
| `Resource.CreateResourceError` | resource/resource.go:47-50 | CreateResource passes the parse error through unchanged; only addresses that start with `:` fail this way |
| `Resource.CreateResourceGcs` | resource/resource.go:52-56 | the GCS constructor is chosen exactly for addresses that start with `gs:`, and it receives the whole original address |
| `Resource.CreateResourceFile` | resource/resource.go:57-60 | the file constructor is chosen exactly for `file:` addresses, which pass the stripped remainder, and for addresses whose scan stops at `/` or `.`, which pass the whole address |
| `Resource.CreateResourceUnknown` | resource/resource.go:61-64 | any other well-formed scheme, such as `http` or `fake`, gives `UnknownTypeError` |
| `Resource.CreateResourceSchemeless` | resource/resource.go:61-64 | an address whose scan stops at none of `:`, `/` and `.`, or runs to the end, also gives `UnknownTypeError` |
| `Resource.GcsBucketAsWritten` | resource/resource.go:55 | as written, every `gs://` address produces a GCS resource with bucket `"gs:"` and a prefix that starts with `/` |
| `Resource.GcsLocatorIntended` | resource/resource.go:54-55 | when the remainder is passed, `gs://bucket/name` produces that bucket and that prefix |
| `Gcs.IndexOf` | resource/gcs/resource.go:61 | `strings.Index` returns the first occurrence of the character, or -1 exactly when it is absent |
| `Gcs.NewResource` | resource/gcs/resource.go:53-78 | a failed client initialisation gives the zero resource and that error; otherwise the error is nil, both generations are 0 and the content type is empty |
| `Gcs.SplitWithoutSlash` | resource/gcs/resource.go:61-66 | with no `/`, the bucket is the whole path and the prefix is empty |
| `Gcs.SplitAtFirstSlash` | resource/gcs/resource.go:61-69 | with the first `/` at index 0<i, the bucket is `path[:i]` and the prefix is `path[i+1:]`. The prefix is empty for a trailing `/` and may contain further `/` otherwise. Bucket, `/` and prefix concatenate to the path |
| `Gcs.SplitAtLeadingSlash` | resource/gcs/resource.go:61-69 | a `/` at index 0 fails both `i > 0` guards: the bucket is the whole path and the prefix is empty |
| `Gcs.Observe` | resource/gcs/update.go:28-33 | recording the object's attributes keeps the bucket and prefix, takes the content type, and leaves the resource no longer stale |
| `Gcs.ObserveSettles` | resource/gcs/update.go:28-33 | recording changes the stored generations exactly when the object is stale; recording the same attributes again changes nothing |
| `Gcs.NewResourceStale` | resource/gcs/resource.go:71-77 | a new resource is stale exactly when the object's generation or metageneration is not zero |
| `Gcs.Poll` | resource/gcs/update.go:14-36 | a client initialisation failure gives `(false, e)` and an attrs failure gives `(false, err)`. Otherwise the result is `(true, nil)` exactly when the metageneration or generation differs from the stored one, and `(false, nil)` if not. The resource stays unchanged |
| `Gcs.Refresh` | resource/gcs/update.go:41-66 | a client initialisation failure calls only the error handler, once. A failed NewReader calls only the error handler, once, with its error. An opened reader is passed to the update function exactly once, and then the error handler receives the `Close` result, even a nil one |
| `Gcs.RepollAsWritten` | resource/gcs/update.go:30-33 | polling a changed object twice reports a change both times, because the fingerprint is assigned to a copy |
| `Gcs.ResourceRef.Poll` | resource/gcs/update.go:14-36 | with a pointer receiver, Poll returns the same answers and stores the observed version exactly when it reports a change |
| `Gcs.RepollCorrected` | resource/gcs/update.go:28-35 | with a pointer receiver, the second poll of an unchanged object reports no change |
| `File.NewResource` | resource/file/resource.go:16-27 | a stat failure gives the zero resource and that error. Otherwise the path is kept as given, the fingerprint is the stat's ModTime and Size, and the error is nil |
| `File.Observe` | resource/file/update.go:19-23 | recording the stat keeps the path and leaves the resource no longer stale |
| `File.ObserveSettles` | resource/file/update.go:19-23 | recording a stat changes the resource exactly when the resource is stale against it |
| `File.NewResourceFresh` | resource/file/resource.go:22-26 | a resource built from a stat is not stale against the same stat, so polling it right away gives `(false, nil)` |
| `File.ZeroStale` | resource/file/update_test.go:27-51 | a resource with a zero fingerprint, whatever its path, is stale against any file whose size is not zero, so Poll reports `(true, nil)` |
| `File.Poll` | resource/file/update.go:14-27 | a stat failure gives `(false, err)`. Otherwise the result is `(true, nil)` exactly when the size or modification time differs from the stored one, and `(false, nil)` if not. The resource stays unchanged |
| `File.Refresh` | resource/file/update.go:29-44 | a failed open calls the error handler exactly once with its error and never calls the update function. An opened file is passed to the update function exactly once, and then the error handler is called only if `Close` fails |
| `File.RepollAsWritten` | resource/file/update.go:14-26 | the zero resource over a 4-byte file reports a change on two polls in a row, although the file did not change in between |
| `File.ResourceRef.Poll` | resource/file/update.go:14-26 | with a pointer receiver, Poll returns the same answers and stores the observed size and time exactly when it reports a change |
| `File.RepollCorrected` | resource/file/update.go:19-26 | with a pointer receiver, the second poll of the unchanged file reports no change |

`Resource.Locate`, `Resource.CreateResource` and `Resource.CreateResourceIntended`
are the specification functions that the lemmas above are about.
`CreateResourceIntended` is `CreateResource` with the `"gs"` case corrected (see
Findings).

## Left out

- `Watch` (io.go:29-62) is not part of this model: its substance is the
  goroutine, the timer and context cancellation. Its per-tick step
  (io.go:43-50) is simple: a poll error is sent on the returned unbuffered
  channel, and a reported change calls Refresh. The timer made at io.go:37 is
  never reset, so at most one tick fires in a whole watch.
- The `update.go` helpers (`WriteUpdate`, `UpdateFromJson`) and the
  process-wide `DefaultErrorHandler` are not part of this model. They wrap
  `io.Copy` and `encoding/json`.
- The net resource stub (`resource/net/resource.go`) and `example/main.go` are
  not part of this model.
- `initClient`, the package-level client and its mutex are reduced to one
  input, the outcome of making sure a client exists. The model does not
  capture lazy shared initialisation or locking.
- Gcs.Refresh: the `go errorHandler(err)` on a failed NewReader is one
  `HandleError` event. The model does not say when the goroutine runs relative
  to the caller.
- Gcs.Refresh: NewReader is modelled as returning either a reader or an
  error, as the storage client does. The model does not cover a non-nil reader
  together with a non-nil error.
- Real stat, open, close and storage calls are parameters. `time.Time` is an
  opaque value compared only for equality. The contents a reader delivers are
  not modelled.
- The Windows path separator is not modelled: `os.PathSeparator` is fixed to
  `/`.
- Go scans the address byte by byte; the model uses characters. Every
  character the scan reacts to is ASCII, so both stop at the same position and
  cut the address at the same place. The same holds for the GCS split at
  resource/gcs/resource.go:61-67: `strings.Index` returns a byte offset and
  `len(path)` counts bytes, while the model counts characters. The two guards
  still agree, because each only asks whether anything comes before or after
  the first `/`.
- The unused `i := strings.Index(p, "/")` on resource/resource.go:54 is not
  modelled. It is never used, and Go rejects a local variable that is
  declared and not used, so the `resource` package does not compile as
  written.

## Findings

| source | as written | input that shows it | evidently intended | confidence | as-written member | corrected member |
|---|---|---|---|---|---|---|
| resource/resource.go:55 | the `"gs"` case passes the whole address `path` to `gcs.NewResource`, which splits it at its first `/` | `"gs://google-bucket/object"` produces bucket `"gs:"` and prefix `"/google-bucket/object"` | pass the remainder `p`; the unused `strings.Index(p, "/")` on line 54 points that way. The result is then bucket `"google-bucket"` and prefix `"object"` | high, not executed | `Resource.GcsBucketAsWritten` | `Resource.GcsLocatorIntended` |
| resource/file/update.go:14 | `Poll` has a value receiver, so the fingerprint assigned on lines 21-22 is lost | the zero resource over a file of size 4 reports a change on the first poll and again on the second, with nothing changed in between | a pointer receiver, so each change is reported once | high, not executed | `File.RepollAsWritten` | `File.RepollCorrected` |
| resource/gcs/update.go:14 | `Poll` has a value receiver, so the version assigned on lines 30-32 is lost | a new resource over an object at generation 1 reports a change on every poll | a pointer receiver, so each new version is reported once | high, not executed | `Gcs.RepollAsWritten` | `Gcs.RepollCorrected` |
