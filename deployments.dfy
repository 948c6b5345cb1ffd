/** The deployment artifact store of packages/serverless/src/deployments/index.ts.
    A deployment's code lives in `<deploymentId>.js` inside the deployments
    folder, its assets under the folder `<deploymentId>`. Each operation is a
    function on the tree (its specification) and a method that performs the
    same `fs` calls on a `Disk`, in the source's order. */
module Deployments {
  import opened Common
  import opened FileSystem

  const CodeSuffix: string := ".js"

  /** `path.join(DEPLOYMENTS_FOLDER, `${deploymentId}.js`)`. */
  function CodePath(id: string): string {
    id + CodeSuffix
  }

  /** `path.join(DEPLOYMENTS_FOLDER, deploymentId)`: the asset folder. */
  function AssetFolder(id: string): string {
    id
  }

  // ---- reading ---------------------------------------------------------------

  /** `hasDeploymentCodeLocally`. */
  predicate Has(t: Tree, d: Deployment) {
    Exists(t, CodePath(d.deploymentId))
  }

  method HasDeploymentCodeLocally(disk: Disk, d: Deployment) returns (b: bool)
    ensures b <==> Exists(disk.State(), d.deploymentId + ".js")
  {
    b := disk.ExistsSync(CodePath(d.deploymentId));
  }

  /** `getDeploymentCode`: the code file's text, or the error the read throws. */
  method GetDeploymentCode(disk: Disk, d: Deployment) returns (r: Result<string, FsError>)
    ensures r.Ok? <==> d.deploymentId + ".js" in disk.State().files
    ensures r.Ok? ==> r.value == disk.State().files[d.deploymentId + ".js"]
    ensures r.Err? ==> r.error == (if d.deploymentId + ".js" in disk.State().dirs then IsDirectory else NoEntry)
  {
    r := disk.ReadFileSync(CodePath(d.deploymentId));
  }

  // ---- writing ---------------------------------------------------------------

  /** `writeDeploymentCode`: create the asset folder (not recursively) when the
      deployment has assets, then write the code file; a failed `mkdirSync`
      throws before the code is written. */
  function WriteCode(t: Tree, d: Deployment, code: string): (Tree, Outcome<FsError>) {
    if |d.assets| > 0 then
      var (t1, o) := MkDir(t, AssetFolder(d.deploymentId), false);
      if o.Fail? then (t, o) else WriteFile(t1, CodePath(d.deploymentId), code)
    else WriteFile(t, CodePath(d.deploymentId), code)
  }

  method WriteDeploymentCode(disk: Disk, d: Deployment, code: string) returns (o: Outcome<FsError>)
    modifies disk
    ensures (disk.State(), o) == WriteCode(old(disk.State()), d, code)
  {
    if |d.assets| > 0 {
      o := disk.MkdirSync(AssetFolder(d.deploymentId), false);
      if o.Fail? {
        return;
      }
    }
    o := disk.WriteFileSync(CodePath(d.deploymentId), code);
  }

  /** What a write leaves behind: on success the code file holds the code (so
      `hasDeploymentCodeLocally` holds and `getDeploymentCode` gives it back),
      the asset folder exists exactly when the deployment has assets, and no
      other file changes. On failure no file changes, and only an asset folder
      made before the write threw is left behind. The tree stays well formed. */
  lemma WriteCodeEffect(t: Tree, d: Deployment, code: string)
    requires Valid(t)
    ensures var (t', o) := WriteCode(t, d, code);
      && Valid(t')
      && (o.Fail? ==> t'.files == t.files && t'.dirs <= t.dirs + {AssetFolder(d.deploymentId)})
      && (o.Fail? && |d.assets| == 0 ==> t' == t)
      && (o.Pass? ==> Has(t', d) && ReadFile(t', CodePath(d.deploymentId)) == Ok(code))
      && (o.Pass? ==> t'.files == t.files[CodePath(d.deploymentId) := code])
      && (o.Pass? && |d.assets| > 0 ==> AssetFolder(d.deploymentId) !in t.dirs && t'.dirs == t.dirs + {AssetFolder(d.deploymentId)})
      && (|d.assets| == 0 ==> t'.dirs == t.dirs)
  {
    var id := d.deploymentId;
    if |d.assets| > 0 {
      MkDirKeepsValid(t, AssetFolder(id), false);
      var t1 := MkDir(t, AssetFolder(id), false).0;
      WriteThenRead(t1, CodePath(id), code);
    } else {
      WriteThenRead(t, CodePath(id), code);
    }
  }

  /** The asset folder is made without `recursive`: if it already exists the
      write throws and the code file is neither created nor replaced. */
  lemma ExistingAssetFolderBlocksWrite(t: Tree, d: Deployment, code: string)
    requires |d.assets| > 0 && Exists(t, AssetFolder(d.deploymentId))
    ensures WriteCode(t, d, code) == (t, Fail(AlreadyExists))
  {
  }

  /** Once the deployments folder is gone, code without assets cannot be
      written: the write throws and changes nothing. */
  lemma WriteCodeNeedsFolder(t: Tree, d: Deployment, code: string)
    requires Valid(t) && |d.assets| == 0 && "" !in t.dirs && '/' !in d.deploymentId
    ensures WriteCode(t, d, code) == (t, Fail(if "" in t.files then NotDirectory else NoEntry))
  {
    assert '/' !in CodePath(d.deploymentId);
    assert Parent(CodePath(d.deploymentId)) == "";
  }

  /** `writeAssetContent`: create the file's directory with every missing
      directory above it, then write the file. For the empty name the file is
      the deployments folder itself, whose directory lies outside the tree
      and always exists. */
  function WriteAsset(t: Tree, name: string, content: string): (Tree, Outcome<FsError>) {
    var (t1, o) := if name == "" then (t, Pass) else MkDir(t, Parent(name), true);
    if o.Fail? then (t, o) else WriteFile(t1, name, content)
  }

  /** The directories above an asset, which its write creates when missing. */
  function AssetDirs(name: string): set<string> {
    if name == "" then {} else Chain(Parent(name))
  }

  method WriteAssetContent(disk: Disk, name: string, content: string) returns (o: Outcome<FsError>)
    modifies disk
    ensures (disk.State(), o) == WriteAsset(old(disk.State()), name, content)
  {
    if name != "" {
      o := disk.MkdirSync(Parent(name), true);
      if o.Fail? {
        return;
      }
    }
    o := disk.WriteFileSync(name, content);
  }

  /** An asset write succeeds exactly when no directory sits at the name and
      no file sits where a directory above it belongs; it then reads back,
      with the directories above it in place. No other file changes, and the
      tree stays well formed. */
  lemma WriteAssetEffect(t: Tree, name: string, content: string)
    requires Valid(t)
    ensures var (t', o) := WriteAsset(t, name, content);
      && Valid(t')
      && (o.Pass? <==> name !in t.dirs && AssetDirs(name) !! t.files.Keys)
      && (o.Pass? ==> ReadFile(t', name) == Ok(content) && t'.dirs == t.dirs + AssetDirs(name))
      && (o.Fail? ==> t'.files == t.files)
      && (forall q :: q != name ==> ReadFile(t', q) == ReadFile(t, q) || (q in AssetDirs(name) && q !in t.dirs))
  {
    if name == "" {
      WriteThenRead(t, name, content);
    } else {
      var p := Parent(name);
      MkDirKeepsValid(t, p, true);
      var (t1, o1) := MkDir(t, p, true);
      WriteThenRead(t1, name, content);
      if o1.Pass? {
        ChainEnds(p);
        if name in Chain(p) {
          ChainShorter(p, name);
          assert false;
        }
      }
    }
  }

  lemma {:induction false} ChainShorter(p: string, q: string)
    requires q in Chain(p)
    ensures |q| <= |p|
    decreases |p|
  {
    if q != p {
      ChainShorter(Parent(p), q);
    }
  }

  // ---- deleting --------------------------------------------------------------

  /** `deleteDeploymentCode`: remove the code file, then the asset folder with
      everything in it. Whatever throws is caught (and logged): if the code
      file cannot be removed, the asset folder is left alone. */
  function DeleteCode(t: Tree, id: string): Tree {
    var (t1, o) := Rm(t, CodePath(id), false, false);
    if o.Fail? then t else Rm(t1, AssetFolder(id), true, true).0
  }

  method DeleteDeploymentCode(disk: Disk, d: Deployment)
    modifies disk
    ensures disk.State() == DeleteCode(old(disk.State()), d.deploymentId)
  {
    var o := disk.RmSync(CodePath(d.deploymentId), false, false);
    if o.Pass? {
      o := disk.RmSync(AssetFolder(d.deploymentId), true, true);
    }
  }

  /** Deleting removes the code file and the whole asset folder and nothing
      else, when the code file is a file; otherwise it changes nothing. */
  lemma DeleteCodeEffect(t: Tree, id: string)
    requires Valid(t)
    ensures var t' := DeleteCode(t, id);
      && Valid(t')
      && (CodePath(id) !in t.files ==> t' == t)
      && (CodePath(id) in t.files ==>
            && CodePath(id) !in t'.files
            && !Exists(t', AssetFolder(id))
            && (forall q :: q != CodePath(id) && !Under(q, AssetFolder(id)) ==>
                  (q in t'.files <==> q in t.files) && (q in t'.dirs <==> q in t.dirs)))
  {
    var (t1, o) := Rm(t, CodePath(id), false, false);
    RmKeepsValid(t, CodePath(id), false, false);
    if o.Pass? {
      RmKeepsValid(t1, AssetFolder(id), true, true);
      RmRemoves(t1, AssetFolder(id), true, true);
    }
  }

  /** Deleting only ever removes, and a deletion leaves no code file behind. */
  lemma DeleteCodeShrinks(t: Tree, id: string)
    ensures var t' := DeleteCode(t, id);
      && t'.files.Keys <= t.files.Keys && t'.dirs <= t.dirs
      && (forall q :: q in t'.files ==> t'.files[q] == t.files[q])
      && CodePath(id) !in t'.files
  {
  }

  // ---- deleteOldDeployments ---------------------------------------------------

  /** The id derived from a folder entry: `replace('.js', '')` removes the FIRST ".js". */
  function DerivedId(entry: string): string {
    ReplaceFirst(entry, CodeSuffix, "")
  }

  /** `deployments.some(deployment => deployment.deploymentId === id)`. */
  predicate Listed(deployments: seq<Deployment>, id: string) {
    exists i :: 0 <= i < |deployments| && deployments[i].deploymentId == id
  }

  /** Whether the loop acts on an entry: it ends in ".js" and its derived id
      is not a current deployment's. */
  predicate IsStale(entry: string, deployments: seq<Deployment>) {
    EndsWith(entry, CodeSuffix) && !Listed(deployments, DerivedId(entry))
  }

  /** The ids handed to `deleteDeploymentCode`, in listing order. */
  function StaleIds(listing: seq<string>, deployments: seq<Deployment>): seq<string> {
    if listing == [] then []
    else
      var e := listing[|listing| - 1];
      StaleIds(listing[..|listing| - 1], deployments) + (if IsStale(e, deployments) then [DerivedId(e)] else [])
  }

  /** The tree after deleting each id in turn. */
  function DeleteAll(t: Tree, ids: seq<string>): Tree {
    if ids == [] then t else DeleteCode(DeleteAll(t, ids[..|ids| - 1]), ids[|ids| - 1])
  }

  /** `deleteOldDeployments`: list the folder once, then delete the code of
      every stale entry in listing order. A failing `readdirSync` throws
      before anything is deleted. */
  method DeleteOldDeployments(disk: Disk, deployments: seq<Deployment>) returns (r: Result<seq<string>, FsError>)
    modifies disk
    ensures r.Err? ==> disk.State() == old(disk.State()) && ReadDir(old(disk.State())) == Err(r.error)
    ensures r.Ok? ==> "" in old(disk.State()).dirs && Distinct(r.value)
    ensures r.Ok? ==> forall n :: n in r.value <==> n in Entries(old(disk.State()))
    ensures r.Ok? ==> disk.State() == DeleteAll(old(disk.State()), StaleIds(r.value, deployments))
  {
    r := disk.ReaddirSync();
    if r.Err? {
      return;
    }
    var listing := r.value;
    for i := 0 to |listing|
      invariant disk.State() == DeleteAll(old(disk.State()), StaleIds(listing[..i], deployments))
    {
      var entry := listing[i];
      ghost var before := StaleIds(listing[..i], deployments);
      assert listing[..i + 1][..i] == listing[..i];
      assert StaleIds(listing[..i + 1], deployments) ==
        before + (if IsStale(entry, deployments) then [DerivedId(entry)] else []);
      if !EndsWith(entry, CodeSuffix) {
        assert before + [] == before;
        continue;
      }
      var id := DerivedId(entry);
      if !Listed(deployments, id) {
        assert (before + [id])[..|before|] == before;
        DeleteDeploymentCode(disk, Deployment(id, [], []));
      } else {
        assert before + [] == before;
      }
    }
    assert listing[..|listing|] == listing;
  }

  /** An id is deleted exactly when some listed entry ends in ".js", derives
      that id, and no current deployment has it. */
  lemma {:induction false} StaleIdsExact(listing: seq<string>, deployments: seq<Deployment>, id: string)
    ensures id in StaleIds(listing, deployments) <==>
      exists e :: e in listing && IsStale(e, deployments) && DerivedId(e) == id
    decreases |listing|
  {
    if listing != [] {
      var n := |listing| - 1;
      StaleIdsExact(listing[..n], deployments, id);
      assert listing == listing[..n] + [listing[n]];
      if exists e :: e in listing && IsStale(e, deployments) && DerivedId(e) == id {
        var e :| e in listing && IsStale(e, deployments) && DerivedId(e) == id;
        if e != listing[n] {
          assert e in listing[..n];
        }
      }
    }
  }

  /** Entries that do not end in ".js" are never acted on: a listing without
      one deletes nothing. */
  lemma {:induction false} NonCodeEntriesIgnored(t: Tree, listing: seq<string>, deployments: seq<Deployment>)
    requires forall i :: 0 <= i < |listing| ==> !EndsWith(listing[i], CodeSuffix)
    ensures StaleIds(listing, deployments) == []
    ensures DeleteAll(t, StaleIds(listing, deployments)) == t
    decreases |listing|
  {
    if listing != [] {
      NonCodeEntriesIgnored(t, listing[..|listing| - 1], deployments);
    }
  }

  /** A name whose only ".js" is its suffix, so that removing the first ".js"
      removes the suffix. */
  predicate WellNamed(entry: string) {
    |entry| >= 3 && IndexOf(entry, CodeSuffix) == Some(|entry| - 3)
  }

  /** A well-named entry is its derived id's code path; any entry that is
      its derived id's code path ends in ".js". */
  lemma DerivedIdRoundTrip(entry: string)
    ensures WellNamed(entry) ==> CodePath(DerivedId(entry)) == entry
    ensures CodePath(DerivedId(entry)) == entry ==> EndsWith(entry, CodeSuffix)
  {
    if WellNamed(entry) {
      assert entry[|entry| - 3..] == CodeSuffix;
      assert entry == entry[..|entry| - 3] + CodeSuffix;
    }
  }

  /** In a plain id followed by ".js", the first ".js" is that one, and
      removing it leaves the id and what follows. */
  lemma FirstSuffixAfterPlain(id: string, rest: string)
    requires PlainId(id)
    ensures IndexOf(id + CodeSuffix + rest, CodeSuffix) == Some(|id|)
    ensures DerivedId(id + CodeSuffix + rest) == id + rest
  {
    var e := id + CodeSuffix + rest;
    assert CodeSuffix[0] == '.' && CodeSuffix[1] == 'j' && CodeSuffix[2] == 's';
    forall j | 0 <= j < |id| ensures !OccursAt(e, CodeSuffix, j) {
      if j + 3 <= |id| {
        assert e[j..j + 3] == id[j..j + 3];
        assert !OccursAt(id, CodeSuffix, j);
      } else {
        assert e[|id|] == '.';
        if j + 3 <= |e| {
          assert e[j..j + 3][|id| - j] == e[|id|];
        }
      }
    }
    assert e[|id|..|id| + 3] == CodeSuffix;
    IndexOfFinds(e, CodeSuffix, |id|, 0);
    assert e[..|id|] == id && e[|id| + 3..] == rest;
    assert DerivedId(e) == e[..|id|] + "" + e[|id| + 3..];
  }

  /** An id without ".js" in it is derived back from its own code path, and
      that code path is well named. */
  lemma CodePathRoundTrip(id: string)
    requires PlainId(id)
    ensures WellNamed(CodePath(id)) && DerivedId(CodePath(id)) == id
  {
    FirstSuffixAfterPlain(id, "");
    assert CodePath(id) == id + CodeSuffix + "";
  }

  /** An id with ".js" inside it is not derived back from its code path:
      "a.jsb" has the code path "a.jsb.js", which derives "ab.js". */
  lemma InnerSuffixIdDoesNotRoundTrip()
    ensures CodePath("a.jsb") == "a.jsb.js" && DerivedId(CodePath("a.jsb")) == "ab.js"
  {
    DerivedIdOfMisnamed();
  }

  lemma {:induction false} IndexOfFinds(s: string, pat: string, k: nat, from: nat)
    requires from <= k && k + |pat| <= |s| && OccursAt(s, pat, k)
    requires forall j :: from <= j < k ==> !OccursAt(s, pat, j)
    ensures IndexOf(s, pat, from) == Some(k)
    decreases k - from
  {
    if from < k {
      IndexOfFinds(s, pat, k, from + 1);
    }
  }

  /** Deleting in turn only ever removes, and leaves no code file of any
      deleted id. */
  lemma {:induction false} DeleteAllShrinks(t: Tree, ids: seq<string>)
    ensures var t' := DeleteAll(t, ids);
      && t'.files.Keys <= t.files.Keys && t'.dirs <= t.dirs
      && (forall q :: q in t'.files ==> t'.files[q] == t.files[q])
      && (forall i :: 0 <= i < |ids| ==> CodePath(ids[i]) !in t'.files)
    decreases |ids|
  {
    if ids != [] {
      var n := |ids| - 1;
      DeleteAllShrinks(t, ids[..n]);
      DeleteCodeShrinks(DeleteAll(t, ids[..n]), ids[n]);
    }
  }

  /** A path that is no deleted id's code file and lies in no deleted id's
      asset folder is untouched. */
  lemma {:induction false} DeleteAllFrame(t: Tree, ids: seq<string>, q: string)
    requires forall i :: 0 <= i < |ids| ==> q != CodePath(ids[i]) && !Under(q, AssetFolder(ids[i]))
    ensures q in DeleteAll(t, ids).files <==> q in t.files
    ensures q in DeleteAll(t, ids).dirs <==> q in t.dirs
    decreases |ids|
  {
    if ids != [] {
      var n := |ids| - 1;
      DeleteAllFrame(t, ids[..n], q);
      var s := DeleteAll(t, ids[..n]);
      var (s1, o) := Rm(s, CodePath(ids[n]), false, false);
      if o.Pass? {
        assert s1.files.Keys == s.files.Keys - {CodePath(ids[n])} && s1.dirs == s.dirs;
      }
    }
  }

  /** A deletion whose code file is already gone changes nothing. */
  lemma DeleteCodeNoop(t: Tree, id: string)
    requires CodePath(id) !in t.files
    ensures DeleteCode(t, id) == t
  {
  }

  /** Deleting ids whose code files are all gone changes nothing. */
  lemma {:induction false} DeleteAllNoop(t: Tree, ids: seq<string>)
    requires forall i :: 0 <= i < |ids| ==> CodePath(ids[i]) !in t.files
    ensures DeleteAll(t, ids) == t
    decreases |ids|
  {
    if ids != [] {
      var n := |ids| - 1;
      DeleteAllNoop(t, ids[..n]);
    }
  }

  /** Running `deleteOldDeployments` again with the same deployments deletes
      nothing further: the second listing is taken from the tree the first
      run left, which holds no entry the first run did not list. */
  lemma SecondRunDeletesNothing(t: Tree, first: seq<string>, second: seq<string>, deployments: seq<Deployment>)
    requires forall n :: n in Entries(t) ==> n in first
    requires forall n :: n in second ==> n in Entries(DeleteAll(t, StaleIds(first, deployments)))
    ensures var t1 := DeleteAll(t, StaleIds(first, deployments));
      DeleteAll(t1, StaleIds(second, deployments)) == t1
  {
    var ids1 := StaleIds(first, deployments);
    var t1 := DeleteAll(t, ids1);
    var ids2 := StaleIds(second, deployments);
    DeleteAllShrinks(t, ids1);
    forall i | 0 <= i < |ids2| ensures CodePath(ids2[i]) !in t1.files {
      var id := ids2[i];
      StaleIdsExact(second, deployments, id);
      var e :| e in second && IsStale(e, deployments) && DerivedId(e) == id;
      assert e in first;
      StaleIdsExact(first, deployments, id);
      var j :| 0 <= j < |ids1| && ids1[j] == id;
    }
    DeleteAllNoop(t1, ids2);
  }

  /** An id without ".js" in it: its code path is well named. */
  predicate PlainId(id: string) {
    forall j :: 0 <= j <= |id| ==> !OccursAt(id, CodeSuffix, j)
  }

  lemma WellNamedIdIsPlain(entry: string)
    requires WellNamed(entry)
    ensures PlainId(DerivedId(entry)) && !EndsWith(DerivedId(entry), CodeSuffix)
    ensures DerivedId(entry) == entry[..|entry| - 3]
  {
    var id := entry[..|entry| - 3];
    assert DerivedId(entry) == id;
    forall j | 0 <= j <= |id| ensures !OccursAt(id, CodeSuffix, j) {
      if OccursAt(id, CodeSuffix, j) {
        assert entry[j..j + 3] == id[j..j + 3];
        assert OccursAt(entry, CodeSuffix, j);
      }
    }
    if EndsWith(id, CodeSuffix) {
      assert OccursAt(id, CodeSuffix, |id| - 3);
    }
  }

  /** When every ".js" entry of the listing is well named and derives a
      non-empty id, a code file in the listing survives exactly when its
      derived id is a current deployment's. */
  lemma WellNamedExactlyStale(t: Tree, listing: seq<string>, deployments: seq<Deployment>, entry: string)
    requires forall e :: e in listing && EndsWith(e, CodeSuffix) ==> WellNamed(e) && e != CodeSuffix
    requires forall e :: e in listing ==> '/' !in e
    requires entry in listing && EndsWith(entry, CodeSuffix) && entry in t.files
    ensures entry in DeleteAll(t, StaleIds(listing, deployments)).files <==>
      Listed(deployments, DerivedId(entry))
  {
    var ids := StaleIds(listing, deployments);
    if Listed(deployments, DerivedId(entry)) {
      forall i | 0 <= i < |ids| ensures entry != CodePath(ids[i]) && !Under(entry, AssetFolder(ids[i])) {
        var x := ids[i];
        StaleIdsExact(listing, deployments, x);
        var e :| e in listing && IsStale(e, deployments) && DerivedId(e) == x;
        WellNamedIdIsPlain(e);
        // the entry's own id is listed, the stale id is not
        CodePathRoundTrip(x);
        assert DerivedId(CodePath(x)) != DerivedId(entry);
        // the stale id is not empty, does not end in ".js", and holds no '/'
        assert e == x + CodeSuffix;
        assert x != "";
        assert |x| < |entry| ==> entry[|x|] != '/';
        assert (x + "/")[|x|] == '/';
      }
      DeleteAllFrame(t, ids, entry);
    } else {
      assert IsStale(entry, deployments);
      StaleIdsExact(listing, deployments, DerivedId(entry));
      var i :| 0 <= i < |ids| && ids[i] == DerivedId(entry);
      DeleteAllShrinks(t, ids);
      WellNamedIdIsPlain(entry);
      DerivedIdRoundTrip(entry);
    }
  }

  // ---- what the first-occurrence replace does to other names ----------------------

  lemma NoCodeSuffixAt(e: string, j: nat)
    requires j + 3 <= |e| ==> e[j] != '.'
    ensures !OccursAt(e, CodeSuffix, j)
  {
    if j + 3 <= |e| {
      assert e[j..j + 3][0] == e[j];
      assert CodeSuffix[0] == '.';
    }
  }

  lemma DerivedIdAt(e: string, k: nat)
    requires OccursAt(e, CodeSuffix, k)
    requires forall j :: 0 <= j < k ==> !OccursAt(e, CodeSuffix, j)
    ensures DerivedId(e) == e[..k] + e[k + 3..]
  {
    IndexOfFinds(e, CodeSuffix, k, 0);
  }

  lemma DerivedIdOfMisnamed()
    ensures DerivedId("a.jsb.js") == "ab.js"
  {
    var e := "a.jsb.js";
    NoCodeSuffixAt(e, 0);
    assert e[1..4] == CodeSuffix;
    DerivedIdAt(e, 1);
    assert e[..1] == "a" && e[4..] == "b.js";
  }

  /** A stale entry with ".js" inside its name ("a.jsb.js") derives an id
      ("ab.js") whose code file does not exist, so it is never deleted. */
  lemma MisnamedStaleEntrySurvives()
    ensures IsStale("a.jsb.js", [])
    ensures var t := Tree(map["a.jsb.js" := "code"], {""});
      DeleteAll(t, StaleIds(["a.jsb.js"], [])) == t
  {
    var e := "a.jsb.js";
    DerivedIdOfMisnamed();
    assert e[5..] == CodeSuffix;
    assert ["a.jsb.js"][..0] == [];
    assert StaleIds(["a.jsb.js"], []) == ["ab.js"];
    assert CodePath("ab.js")[1] == 'b';
  }

  /** For a live deployment `x`, a leftover entry `x.js.js` derives the
      stale id `x.js`, whose asset folder path is `x`'s code file: deleting
      it removes the live deployment's code. */
  lemma NestedSuffixDeletesLiveCode(t: Tree, x: string, deployments: seq<Deployment>)
    requires Valid(t) && PlainId(x)
    requires Listed(deployments, x) && !Listed(deployments, CodePath(x))
    requires CodePath(CodePath(x)) in t.files
    ensures IsStale(CodePath(CodePath(x)), deployments)
    ensures DerivedId(CodePath(CodePath(x))) == CodePath(x)
    ensures !Exists(DeleteCode(t, DerivedId(CodePath(CodePath(x)))), CodePath(x))
  {
    var e := CodePath(CodePath(x));
    FirstSuffixAfterPlain(x, CodeSuffix);
    assert e == x + CodeSuffix + CodeSuffix;
    assert e[|x| + 3..] == CodeSuffix;
    DeleteCodeEffect(t, CodePath(x));
  }

  /** An entry named ".js" derives the empty id, and deleting it removes the
      whole deployments folder with every deployment in it. */
  lemma DotJsEntryClearsFolder(t: Tree)
    requires Valid(t) && CodeSuffix in t.files
    ensures DerivedId(CodeSuffix) == ""
    ensures DeleteCode(t, DerivedId(CodeSuffix)) == Tree(map[], {})
  {
    assert CodeSuffix[0..3] == CodeSuffix;
    DerivedIdAt(CodeSuffix, 0);
    assert CodeSuffix[..0] + CodeSuffix[3..] == "";
    assert CodePath("") == CodeSuffix;
    assert '/' !in CodeSuffix;
    var t1 := Rm(t, CodeSuffix, false, false).0;
    assert "" in t1.dirs && "" !in t1.files;
    var t2 := RemoveUnder(t1, "");
    assert t2.files.Keys == {};
    assert t2.dirs == {};
  }
}
