/** The runtime polyfill files of packages/runtime/src/isolate/runtime.ts:
    `readRuntimeFile`, which names a file and applies an optional rewrite, and
    the fixed list of modules compiled into the startup snapshot. Reading the
    file from disk and the two regular-expression rewrites are not modelled;
    they come in as functions. */
module RuntimeFiles {
  import opened Common

  /** A compiled-in source: the file name the isolate reports and its code. */
  datatype RuntimeSource = RuntimeSource(filename: string, code: string)

  const FilePrefix: string := "file:///"
  const FileSuffix: string := ".js"

  /** The file name a runtime module is evaluated under. */
  function RuntimeFileName(name: string): string {
    FilePrefix + Lower(name) + FileSuffix
  }

  /** `readRuntimeFile(name, transform)`: `source` is the file's text as read,
      `stripExports` the removal of its `export` statements; the transform's
      result is used unless there is no transform or it yields the empty
      string (`transform?.(code) || code`). */
  function ReadRuntimeFile(name: string, source: string, stripExports: string -> string,
                           transform: Option<string -> string>): (r: RuntimeSource)
    ensures r.filename == RuntimeFileName(name)
    ensures transform.None? ==> r.code == stripExports(source)
    ensures transform.Some? && transform.value(stripExports(source)) != "" ==>
      r.code == transform.value(stripExports(source))
    ensures transform.Some? && transform.value(stripExports(source)) == "" ==>
      r.code == stripExports(source)
    ensures r.code == "" ==> stripExports(source) == ""
  {
    var code := stripExports(source);
    var transformed := if transform.Some? then transform.value(code) else "";
    RuntimeSource(RuntimeFileName(name), if transformed != "" then transformed else code)
  }

  /** Recovers the module name from a runtime file name. */
  function ModuleOfFileName(filename: string): Option<string> {
    if |FilePrefix| + |FileSuffix| <= |filename|
       && filename[..|FilePrefix|] == FilePrefix
       && filename[|filename| - |FileSuffix|..] == FileSuffix
    then Some(filename[|FilePrefix|..|filename| - |FileSuffix|])
    else None
  }

  /** A file name gives back the lower-cased module name it was made from. */
  lemma FileNameRoundTrip(name: string)
    ensures ModuleOfFileName(RuntimeFileName(name)) == Some(Lower(name))
  {
    var f := RuntimeFileName(name);
    assert f[..|FilePrefix|] == FilePrefix;
    assert f[|f| - |FileSuffix|..] == FileSuffix;
    assert f[|FilePrefix|..|f| - |FileSuffix|] == Lower(name);
  }

  /** Two modules share a file name exactly when their names agree up to case. */
  lemma FileNameIgnoresCase(a: string, b: string)
    ensures RuntimeFileName(a) == RuntimeFileName(b) <==> Lower(a) == Lower(b)
  {
    if RuntimeFileName(a) == RuntimeFileName(b) {
      FileNameRoundTrip(a);
      FileNameRoundTrip(b);
    }
  }

  /** The modules of the startup snapshot, in compilation order. */
  const SnapshotModules: seq<string> :=
    ["Response", "Request", "parseMultipart", "URL", "encoding", "base64", "streams"]

  /** Response and Request have their assignments to `global` removed. */
  predicate StripsGlobals(name: string) {
    name == "Response" || name == "Request"
  }

  /** The sources handed to `createSnapshot`: `read` gives a module's file text,
      `stripGlobals` stands for the `global.*;` removal. */
  function SnapshotSources(read: string -> string, stripExports: string -> string,
                           stripGlobals: string -> string): seq<RuntimeSource>
  {
    seq(|SnapshotModules|, i requires 0 <= i < |SnapshotModules| =>
      var name := SnapshotModules[i];
      ReadRuntimeFile(name, read(name), stripExports,
                      if StripsGlobals(name) then Some(stripGlobals) else None))
  }

  /** The lower-case names the snapshot's files are reported under. */
  const SnapshotFileStems: seq<string> :=
    ["response", "request", "parsemultipart", "url", "encoding", "base64", "streams"]

  lemma LowerSnapshotModules()
    ensures forall i :: 0 <= i < 7 ==> Lower(SnapshotModules[i]) == SnapshotFileStems[i]
  {
    assert Lower("Response") == "response";
    assert Lower("Request") == "request";
    assert Lower("parseMultipart") == "parsemultipart";
    assert Lower("URL") == "url";
    assert Lower("encoding") == "encoding";
    assert Lower("base64") == "base64";
    assert Lower("streams") == "streams";
  }

  /** The snapshot compiles seven sources under seven distinct lower-case file
      names, in the fixed order; only Response and Request are rewritten, and
      a rewrite that leaves nothing falls back to the unrewritten code. */
  lemma SnapshotLayout(read: string -> string, stripExports: string -> string,
                       stripGlobals: string -> string)
    ensures var r := SnapshotSources(read, stripExports, stripGlobals);
      && |r| == 7
      && (forall i :: 0 <= i < 7 ==> r[i].filename == FilePrefix + SnapshotFileStems[i] + FileSuffix)
      && (forall i, j :: 0 <= i < j < 7 ==> r[i].filename != r[j].filename)
      && (forall i :: 2 <= i < 7 ==> r[i].code == stripExports(read(SnapshotModules[i])))
      && (forall i :: 0 <= i < 2 ==>
            var code := stripExports(read(SnapshotModules[i]));
            r[i].code == if stripGlobals(code) != "" then stripGlobals(code) else code)
  {
    var r := SnapshotSources(read, stripExports, stripGlobals);
    LowerSnapshotModules();
    forall i, j | 0 <= i < j < 7 ensures r[i].filename != r[j].filename {
      FileNameRoundTrip(SnapshotModules[i]);
      FileNameRoundTrip(SnapshotModules[j]);
      assert SnapshotFileStems[i] != SnapshotFileStems[j] by {
        var a, b := SnapshotFileStems[i], SnapshotFileStems[j];
        assert |a| != |b| || a[0] != b[0];
      }
    }
  }
}
