/** The part of Node's synchronous `fs` API the deployment store uses
    (`existsSync`, `readFileSync`, `writeFileSync`, `mkdirSync`, `rmSync`,
    `readdirSync`), over an abstract tree of files and directories. Paths
    are relative to the deployments folder, whose own path is "". */
module FileSystem {
  import opened Common

  /** The error codes the calls throw: ENOENT, EEXIST, EISDIR, ENOTDIR. */
  datatype FsError = NoEntry | AlreadyExists | IsDirectory | NotDirectory

  /** The files (with their contents) and the directories below the folder. */
  datatype Tree = Tree(files: map<string, string>, dirs: set<string>)

  /** `path.dirname` inside the folder: everything before the last '/', or
      the folder itself for a top-level name. */
  function Parent(p: string): (r: string)
    ensures p != "" ==> |r| < |p|
    ensures r != "" ==> r + "/" <= p
    ensures '/' !in p ==> r == ""
    ensures '/' in p ==> r == p[..|r|] && p[|r|] == '/' && '/' !in p[|r| + 1..]
    decreases |p|
  {
    if p == "" then ""
    else if p[|p| - 1] == '/' then p[..|p| - 1]
    else Parent(p[..|p| - 1])
  }

  /** A path and all the directories above it, down to the folder. */
  function Chain(p: string): set<string>
    decreases |p|
  {
    if p == "" then {""} else {p} + Chain(Parent(p))
  }

  lemma {:induction false} ChainEnds(p: string)
    ensures p in Chain(p) && "" in Chain(p)
    decreases |p|
  {
    if p != "" {
      ChainEnds(Parent(p));
    }
  }

  /** The chain is closed under taking parents. */
  lemma {:induction false} ChainClosed(p: string, q: string)
    requires q in Chain(p) && q != ""
    ensures Parent(q) in Chain(p)
    decreases |p|
  {
    if q == p {
      ChainEnds(Parent(p));
    } else {
      ChainClosed(Parent(p), q);
    }
  }

  /** `q` is `d` itself or lies inside it. */
  predicate Under(q: string, d: string) {
    d == "" || q == d || d + "/" <= q
  }

  lemma UnderParent(q: string, d: string)
    requires q != "" && Under(Parent(q), d)
    ensures Under(q, d)
  {
    var r := Parent(q);
    if d != "" && r != d {
      assert d + "/" <= r && r + "/" <= q;
      assert (d + "/") == q[..|d| + 1] by {
        assert (d + "/") == r[..|d| + 1];
        assert r == q[..|r|];
      }
    }
  }

  /** A well-formed tree: no path is both a file and a directory, and
      everything but the folder sits in an existing directory. */
  ghost predicate Valid(t: Tree) {
    && (forall p :: p in t.files ==> p !in t.dirs)
    && (forall p :: p in t.files && p != "" ==> Parent(p) in t.dirs)
    && (forall p :: p in t.dirs && p != "" ==> Parent(p) in t.dirs)
  }

  /** `fs.existsSync(p)`. */
  predicate Exists(t: Tree, p: string) {
    p in t.files || p in t.dirs
  }

  /** `fs.readFileSync(p)`. */
  function ReadFile(t: Tree, p: string): (r: Result<string, FsError>)
    ensures r.Ok? <==> p in t.files
    ensures r.Ok? ==> r.value == t.files[p]
    ensures r.Err? ==> r.error == (if p in t.dirs then IsDirectory else NoEntry)
  {
    if p in t.files then Ok(t.files[p])
    else if p in t.dirs then Err(IsDirectory)
    else Err(NoEntry)
  }

  /** The tree without `d` and everything inside it. */
  function RemoveUnder(t: Tree, d: string): Tree {
    Tree(map q | q in t.files && !Under(q, d) :: t.files[q],
         set q | q in t.dirs && !Under(q, d))
  }

  /** `fs.rmSync(p, { recursive, force })`: a file is removed; a directory
      only when `recursive`; a missing path is an error unless `force`. */
  function Rm(t: Tree, p: string, recursive: bool, force: bool): (r: (Tree, Outcome<FsError>))
    ensures r.1.Fail? ==> r.0 == t
    ensures r.1.Pass? <==> p in t.files || (p in t.dirs && recursive) || (!Exists(t, p) && force)
    ensures r.1 == Fail(IsDirectory) <==> p !in t.files && p in t.dirs && !recursive
    ensures r.0.files.Keys <= t.files.Keys && r.0.dirs <= t.dirs
    ensures forall q :: q in r.0.files ==> r.0.files[q] == t.files[q]
  {
    if p in t.files then (Tree(t.files - {p}, t.dirs), Pass)
    else if p in t.dirs then
      if recursive then (RemoveUnder(t, p), Pass) else (t, Fail(IsDirectory))
    else if force then (t, Pass)
    else (t, Fail(NoEntry))
  }

  /** After a successful removal, nothing is left at the path; other paths
      outside it are untouched. */
  lemma RmRemoves(t: Tree, p: string, recursive: bool, force: bool)
    requires Valid(t)
    ensures var (t', o) := Rm(t, p, recursive, force);
      && (o.Pass? ==> !Exists(t', p))
      && (forall q :: !Under(q, p) ==>
            (q in t'.files <==> q in t.files) && (q in t'.dirs <==> q in t.dirs))
  {
  }

  lemma RmKeepsValid(t: Tree, p: string, recursive: bool, force: bool)
    requires Valid(t)
    ensures Valid(Rm(t, p, recursive, force).0)
  {
    var t' := Rm(t, p, recursive, force).0;
    if p !in t.files && p in t.dirs && recursive {
      forall q | q in t'.files && q != "" ensures Parent(q) in t'.dirs {
        if Under(Parent(q), p) {
          UnderParent(q, p);
        }
      }
      forall q | q in t'.dirs && q != "" ensures Parent(q) in t'.dirs {
        if Under(Parent(q), p) {
          UnderParent(q, p);
        }
      }
    }
  }

  /** `fs.mkdirSync(p, { recursive })`. Without `recursive` the path must not
      exist and its parent must be a directory; with it, every missing
      directory on the way is created and an existing directory is fine. The
      folder's own parent lies outside the tree and always exists. */
  function MkDir(t: Tree, p: string, recursive: bool): (r: (Tree, Outcome<FsError>))
    ensures r.1.Fail? ==> r.0 == t
    ensures r.1.Pass? ==> r.0.files == t.files && p in r.0.dirs && t.dirs <= r.0.dirs
    ensures !recursive && Exists(t, p) ==> r.1 == Fail(AlreadyExists)
    ensures r.1.Pass? && !recursive ==> r.0.dirs == t.dirs + {p}
    ensures r.1.Pass? && recursive ==> r.0.dirs == t.dirs + Chain(p)
    ensures recursive ==> (r.1.Pass? <==> Chain(p) !! t.files.Keys)
  {
    if !recursive then
      if p in t.files || p in t.dirs then (t, Fail(AlreadyExists))
      else if p != "" && Parent(p) in t.files then (t, Fail(NotDirectory))
      else if p != "" && Parent(p) !in t.dirs then (t, Fail(NoEntry))
      else (Tree(t.files, t.dirs + {p}), Pass)
    else
      ChainEnds(p);
      if p in t.files then (t, Fail(AlreadyExists))
      else if Chain(p) * t.files.Keys != {} then (t, Fail(NotDirectory))
      else (Tree(t.files, t.dirs + Chain(p)), Pass)
  }

  lemma MkDirKeepsValid(t: Tree, p: string, recursive: bool)
    requires Valid(t)
    ensures Valid(MkDir(t, p, recursive).0)
  {
    var (t', o) := MkDir(t, p, recursive);
    if o.Pass? && recursive {
      forall q | q in t'.dirs && q != "" ensures Parent(q) in t'.dirs {
        if q in Chain(p) {
          ChainClosed(p, q);
        }
      }
    }
  }

  /** `fs.writeFileSync(p, content)`: creates or overwrites a file whose
      directory exists. */
  function WriteFile(t: Tree, p: string, content: string): (r: (Tree, Outcome<FsError>))
    ensures r.1.Fail? ==> r.0 == t
    ensures r.1.Pass? <==> p !in t.dirs && (p == "" || (Parent(p) in t.dirs && Parent(p) !in t.files))
    ensures r.1.Pass? ==> r.0 == Tree(t.files[p := content], t.dirs)
  {
    if p in t.dirs then (t, Fail(IsDirectory))
    else if p != "" && Parent(p) in t.files then (t, Fail(NotDirectory))
    else if p != "" && Parent(p) !in t.dirs then (t, Fail(NoEntry))
    else (Tree(t.files[p := content], t.dirs), Pass)
  }

  /** A successful write reads back, and a failed one leaves the tree as it was. */
  lemma WriteThenRead(t: Tree, p: string, content: string)
    requires Valid(t)
    ensures var (t', o) := WriteFile(t, p, content);
      && Valid(t')
      && (o.Pass? ==> ReadFile(t', p) == Ok(content))
      && (forall q :: q != p ==> ReadFile(t', q) == ReadFile(t, q))
  {
  }

  /** A name directly inside the folder. */
  predicate IsName(n: string) {
    n != "" && '/' !in n
  }

  /** What `fs.readdirSync` lists: the names of the folder's files and directories. */
  function Entries(t: Tree): (r: set<string>)
    ensures forall n :: n in r <==> IsName(n) && Exists(t, n)
  {
    set n | n in t.files.Keys + t.dirs && IsName(n)
  }

  /** `fs.readdirSync` of the folder. */
  function ReadDir(t: Tree): (r: Result<set<string>, FsError>)
    ensures r.Ok? <==> "" in t.dirs
    ensures r.Ok? ==> r.value == Entries(t)
  {
    if "" in t.dirs then Ok(Entries(t))
    else if "" in t.files then Err(NotDirectory)
    else Err(NoEntry)
  }

  predicate Distinct(s: seq<string>) {
    forall i, j :: 0 <= i < j < |s| ==> s[i] != s[j]
  }

  /** The disk the store works on. */
  class Disk {
    var files: map<string, string>
    var dirs: set<string>

    function State(): Tree
      reads this
    {
      Tree(files, dirs)
    }

    constructor (t: Tree)
      ensures State() == t
    {
      files := t.files;
      dirs := t.dirs;
    }

    method Set(t: Tree)
      modifies this
      ensures State() == t
    {
      files := t.files;
      dirs := t.dirs;
    }

    method ExistsSync(p: string) returns (b: bool)
      ensures b <==> Exists(State(), p)
    {
      b := p in files || p in dirs;
    }

    method ReadFileSync(p: string) returns (r: Result<string, FsError>)
      ensures r == ReadFile(State(), p)
    {
      r := ReadFile(State(), p);
    }

    method WriteFileSync(p: string, content: string) returns (o: Outcome<FsError>)
      modifies this
      ensures (State(), o) == WriteFile(old(State()), p, content)
    {
      var (t, outcome) := WriteFile(State(), p, content);
      Set(t);
      o := outcome;
    }

    method MkdirSync(p: string, recursive: bool) returns (o: Outcome<FsError>)
      modifies this
      ensures (State(), o) == MkDir(old(State()), p, recursive)
    {
      var (t, outcome) := MkDir(State(), p, recursive);
      Set(t);
      o := outcome;
    }

    method RmSync(p: string, recursive: bool, force: bool) returns (o: Outcome<FsError>)
      modifies this
      ensures (State(), o) == Rm(old(State()), p, recursive, force)
    {
      var (t, outcome) := Rm(State(), p, recursive, force);
      Set(t);
      o := outcome;
    }

    /** The folder's entries, each once, in an order the disk chooses. */
    method ReaddirSync() returns (r: Result<seq<string>, FsError>)
      ensures r.Ok? <==> ReadDir(State()).Ok?
      ensures r.Ok? ==> Distinct(r.value) && (forall n :: n in r.value <==> n in Entries(State()))
      ensures r.Err? ==> r.error == ReadDir(State()).error
    {
      var listing := ReadDir(State());
      if listing.Err? {
        return Err(listing.error);
      }
      var remaining := listing.value;
      var names: seq<string> := [];
      while remaining != {}
        invariant forall n :: n in listing.value <==> n in names || n in remaining
        invariant forall n :: n in names ==> n !in remaining
        invariant Distinct(names)
        decreases |remaining|
      {
        var n :| n in remaining;
        names := names + [n];
        remaining := remaining - {n};
      }
      r := Ok(names);
    }
  }
}
