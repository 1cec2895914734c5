/** The file system the workspace manager works on: a map from resolved
    path to directory or file, with the fs/fs-extra operations the core
    calls (`existsSync`, `mkdirp`, `outputFile`, `writeJSON`, `readJSON`,
    `remove`, `move`) and the error each can raise. */
module FileSystem {
  import opened Wrappers
  import opened Json
  import opened Paths

  /** What a file holds: text as written by `outputFile`, or a JSON
      document as written by `writeJSON`. */
  datatype FileData = Text(text: string) | Doc(doc: Json)

  datatype Node = Dir | File(data: FileData)

  /** The root "/" is always a directory and is not stored. */
  type FileSystem = map<Path, Node>

  /** The errors the file-system calls raise. */
  datatype FsError =
    | NotADirectory(path: Path)        // ENOTDIR / EEXIST: a file where a directory is needed
    | IsADirectory(path: Path)         // EISDIR: a file write aimed at a directory
    | MoveIntoItself(from: Path, to: Path)
    | NotFound(path: Path)             // ENOENT: move from a path that does not exist
    | DestinationExists(path: Path)    // move onto a path that exists: "dest already exists."
    | Unreadable(path: Path)           // readJSON: no JSON document there
    | NotAnObject(path: Path)          // TypeError: a property set on a null document

  /** `fs.existsSync`. */
  predicate Exists(fs: FileSystem, p: Path) {
    p == [] || p in fs
  }

  predicate IsDir(fs: FileSystem, p: Path) {
    p == [] || (p in fs && fs[p].Dir?)
  }

  predicate IsFile(fs: FileSystem, p: Path) {
    p in fs && fs[p].File?
  }

  function Parent(p: Path): Path
    requires p != []
  {
    p[..|p| - 1]
  }

  /** Every stored path is canonical and sits in a directory. */
  ghost predicate WellFormed(fs: FileSystem) {
    forall q :: q in fs ==> q != [] && Canonical(q) && IsDir(fs, Parent(q))
  }

  /** No file stands at `p` or at any directory on the way to it. */
  predicate NoFileOnWay(fs: FileSystem, p: Path) {
    forall k :: 1 <= k <= |p| ==> !IsFile(fs, p[..k])
  }

  /** `fse.mkdirp(p)`: creates every missing directory on the way to `p`;
      fails when a file stands at one of them. Nothing that exists changes. */
  function MkdirP(fs: FileSystem, p: Path): (r: Result<FileSystem, FsError>)
    ensures r.Success? <==> NoFileOnWay(fs, p)
    ensures r.Success? ==> forall k :: 0 <= k <= |p| ==> IsDir(r.value, p[..k])
    ensures r.Success? ==> forall q :: q in fs ==> q in r.value && r.value[q] == fs[q]
    ensures r.Success? ==> forall q :: q in r.value && q !in fs ==> q != [] && Within(p, q) && r.value[q] == Dir
    decreases |p|
  {
    if p == [] then Success(fs)
    else
      var up := MkdirP(fs, Parent(p));
      assert forall k :: 0 <= k < |p| ==> p[..k] == Parent(p)[..k];
      assert p[..|p|] == p;
      if up.Failure? then up
      else if p !in up.value then
        assert NoFileOnWay(fs, p) by {
          forall k | 1 <= k <= |p| ensures !IsFile(fs, p[..k]) {
            if k < |p| { assert !IsFile(fs, Parent(p)[..k]); }
          }
        }
        Success(up.value[p := Dir])
      else if up.value[p].Dir? then
        Success(up.value)
      else
        assert IsFile(fs, p[..|p|]);
        Failure(NotADirectory(p))
  }

  /** `fse.remove(p)`: the whole subtree at `p` goes, nothing else changes. */
  function Remove(fs: FileSystem, p: Path): (r: FileSystem)
    ensures forall q :: q in r <==> q in fs && !Within(q, p)
    ensures forall q :: q in r ==> r[q] == fs[q]
  {
    map q | q in fs && !Within(q, p) :: fs[q]
  }

  /** The subtree at `from`, re-rooted at `to`. */
  function Moved(fs: FileSystem, from: Path, to: Path): (m: FileSystem)
    ensures forall rel :: from + rel in fs ==> to + rel in m && m[to + rel] == fs[from + rel]
    ensures forall k :: k in m ==> Within(k, to) && from + k[|to|..] in fs && m[k] == fs[from + k[|to|..]]
  {
    var keys := set q | q in fs && Within(q, from) :: to + q[|from|..];
    assert forall k | k in keys :: |to| <= |k| && from + k[|to|..] in fs by {
      forall k | k in keys ensures |to| <= |k| && from + k[|to|..] in fs {
        var q :| q in fs && Within(q, from) && k == to + q[|from|..];
        assert k[|to|..] == q[|from|..];
        assert from + q[|from|..] == q;
      }
    }
    var m := map k | k in keys :: fs[from + k[|to|..]];
    assert forall rel :: from + rel in fs ==> to + rel in keys by {
      forall rel | from + rel in fs ensures to + rel in keys {
        var q := from + rel;
        assert q[..|from|] == from && q[|from|..] == rel;
      }
    }
    assert forall rel :: (to + rel)[|to|..] == rel;
    m
  }

  /** `fse.move(from, to)` without `overwrite`: a missing source fails, and so
      does moving a path into itself; then the parent of `to` is created, an
      existing destination fails, and otherwise the subtree at `from` moves
      to `to`. */
  function Move(fs: FileSystem, from: Path, to: Path): (r: Result<FileSystem, FsError>)
    requires to != []
  {
    if !Exists(fs, from) then Failure(NotFound(from))
    else if Within(to, from) then Failure(MoveIntoItself(from, to))
    else
      var up := MkdirP(fs, Parent(to));
      if up.Failure? then Failure(up.error)
      else if Exists(up.value, to) then Failure(DestinationExists(to))
      else Success(Remove(up.value, from) + Moved(up.value, from, to))
  }

  /** `fse.outputFile(p, text)`: creates the parent directories, then writes
      the file; fails on a directory at `p` or a file on the way. */
  function OutputFile(fs: FileSystem, p: Path, text: string): (r: Result<FileSystem, FsError>)
    ensures r.Success? <==> p != [] && NoFileOnWay(fs, Parent(p)) && !IsDir(fs, p)
    ensures r.Success? ==> p in r.value && r.value[p] == File(Text(text))
    ensures r.Success? ==> forall q :: q in fs && q != p ==> q in r.value && r.value[q] == fs[q]
    ensures r.Success? ==> forall q :: q in r.value && q !in fs && q != p ==> Within(Parent(p), q) && r.value[q] == Dir
  {
    if p == [] then Failure(IsADirectory(p))
    else
      var up := MkdirP(fs, Parent(p));
      if up.Failure? then up
      else if IsDir(up.value, p) then Failure(IsADirectory(p))
      else Success(up.value[p := File(Text(text))])
  }

  /** `fse.writeJSON(p, doc)`: (over)writes the file at `p`; its directory must exist. */
  function WriteDoc(fs: FileSystem, p: Path, doc: Json): (r: Result<FileSystem, FsError>)
    ensures r.Success? <==> p != [] && !IsDir(fs, p) && IsDir(fs, Parent(p))
    ensures r.Success? ==> r.value == fs[p := File(Doc(doc))]
  {
    if p == [] || IsDir(fs, p) then Failure(IsADirectory(p))
    else if !IsDir(fs, Parent(p)) then Failure(NotADirectory(Parent(p)))
    else Success(fs[p := File(Doc(doc))])
  }

  /** `fse.readJSON(p)`: the JSON document at `p`, if there is one. */
  function ReadJson(fs: FileSystem, p: Path): (r: Result<Json, FsError>)
    ensures r.Success? <==> p in fs && fs[p].File? && fs[p].data.Doc?
    ensures r.Success? ==> r.value == fs[p].data.doc
    ensures r.Failure? ==> r.error == Unreadable(p)
  {
    if p in fs && fs[p].File? && fs[p].data.Doc? then Success(fs[p].data.doc) else Failure(Unreadable(p))
  }

  /** `mkdirp` keeps the tree well formed. */
  lemma MkdirPWellFormed(fs: FileSystem, p: Path)
    requires WellFormed(fs) && Canonical(p) && MkdirP(fs, p).Success?
    ensures WellFormed(MkdirP(fs, p).value)
  {
    var r := MkdirP(fs, p).value;
    forall q | q in r ensures q != [] && Canonical(q) && IsDir(r, Parent(q)) {
      if q !in fs {
        assert q == p[..|q|];
        assert Parent(q) == p[..|q| - 1];
        assert Canonical(q) by {
          forall i | 0 <= i < |q| ensures IsName(q[i]) { assert q[i] == p[i]; }
        }
      }
    }
  }

  /** Removing a subtree keeps the tree well formed. */
  lemma RemoveWellFormed(fs: FileSystem, p: Path)
    requires WellFormed(fs)
    ensures WellFormed(Remove(fs, p))
  {
    var r := Remove(fs, p);
    forall q | q in r ensures IsDir(r, Parent(q)) {
    }
  }

  /** In a well-formed tree everything on the way to a stored path is a directory. */
  lemma {:induction false} AncestorsAreDirs(fs: FileSystem, p: Path)
    requires WellFormed(fs) && p in fs
    ensures forall k :: 0 <= k < |p| ==> IsDir(fs, p[..k])
    decreases |p|
  {
    var up := Parent(p);
    assert IsDir(fs, up);
    if up != [] {
      AncestorsAreDirs(fs, up);
    }
    forall k | 0 <= k < |p| ensures IsDir(fs, p[..k]) {
      if k < |up| { assert p[..k] == up[..k]; } else { assert p[..k] == up; }
    }
  }

  /** A path with something stored below it is itself stored. */
  lemma StoredAbove(fs: FileSystem, p: Path, q: Path)
    requires WellFormed(fs) && q in fs && Within(q, p) && p != []
    ensures p in fs && (p != q ==> fs[p].Dir?)
  {
    if |p| < |q| {
      AncestorsAreDirs(fs, q);
      assert q[..|p|] == p;
    } else {
      assert q == q[..|p|];
    }
  }

  /** `mkdirp` of a path whose directories all exist changes nothing. */
  lemma MkdirPExisting(fs: FileSystem, p: Path)
    requires forall k :: 0 <= k <= |p| ==> IsDir(fs, p[..k])
    ensures MkdirP(fs, p) == Success(fs)
  {
    var r := MkdirP(fs, p);
    assert r.Success? by {
      forall k | 1 <= k <= |p| ensures !IsFile(fs, p[..k]) {
        assert IsDir(fs, p[..k]);
      }
    }
    forall q | q in r.value ensures q in fs {
      if q !in fs {
        assert false;
      }
    }
    assert r.value.Keys == fs.Keys;
  }

  /** `mkdirp` below an existing directory `d` adds only the directories
      between `d` and `p`. */
  lemma MkdirPBelow(fs: FileSystem, d: Path, p: Path)
    requires WellFormed(fs) && IsDir(fs, d) && Within(p, d)
    ensures MkdirP(fs, p).Success? <==> forall k :: |d| < k <= |p| ==> !IsFile(fs, p[..k])
    ensures MkdirP(fs, p).Success? ==>
              forall q :: q in MkdirP(fs, p).value && q !in fs ==> |d| < |q| && Within(p, q)
  {
    if d != [] {
      AncestorsAreDirs(fs, d);
    }
    forall k | 1 <= k <= |d| ensures IsDir(fs, p[..k]) {
      assert p[..k] == d[..k];
      if k == |d| { assert p[..k] == d; }
    }
    assert forall k :: 1 <= k <= |d| ==> p[..k] in fs;
    var r := MkdirP(fs, p);
    if r.Success? {
      forall q | q in r.value && q !in fs ensures |d| < |q| {
      }
    }
  }

  /** A file stored in an existing directory, where no directory stands,
      keeps the tree well formed. */
  lemma PutFileWellFormed(fs: FileSystem, p: Path, data: FileData)
    requires WellFormed(fs) && Canonical(p) && p != [] && IsDir(fs, Parent(p)) && !IsDir(fs, p)
    ensures WellFormed(fs[p := File(data)])
  {
    var r := fs[p := File(data)];
    forall q | q in r ensures q != [] && Canonical(q) && IsDir(r, Parent(q)) {
      if q != p && Parent(q) == p {
        assert false;
      }
    }
  }

  /** writeJSON into an existing directory keeps the tree well formed. */
  lemma WriteDocWellFormed(fs: FileSystem, p: Path, doc: Json)
    requires WellFormed(fs) && Canonical(p) && WriteDoc(fs, p, doc).Success?
    ensures WellFormed(WriteDoc(fs, p, doc).value)
  {
    PutFileWellFormed(fs, p, Doc(doc));
  }

  /** outputFile keeps the tree well formed. */
  lemma OutputFileWellFormed(fs: FileSystem, p: Path, text: string)
    requires WellFormed(fs) && Canonical(p) && OutputFile(fs, p, text).Success?
    ensures WellFormed(OutputFile(fs, p, text).value)
  {
    var up := MkdirP(fs, Parent(p)).value;
    assert Canonical(Parent(p));
    MkdirPWellFormed(fs, Parent(p));
    assert IsDir(up, Parent(p)[..|Parent(p)|]);
    PutFileWellFormed(up, p, Text(text));
  }


  /** Inside the moved subtree every path is canonical and sits in a
      moved directory, except the new root `to` itself. */
  lemma MovedWellFormed(up: FileSystem, from: Path, to: Path)
    requires WellFormed(up) && Canonical(to) && from != [] && to != []
    ensures forall q :: q in Moved(up, from, to) ==>
              q != [] && Canonical(q) && (q != to ==> IsDir(Moved(up, from, to), Parent(q)))
  {
    var moved := Moved(up, from, to);
    forall q | q in moved ensures q != [] && Canonical(q) && (q != to ==> IsDir(moved, Parent(q))) {
      var rel := q[|to|..];
      assert q == to + rel;
      var src := from + rel;
      assert src in up;
      assert Canonical(q) by {
        forall i | 0 <= i < |q| ensures IsName(q[i]) {
          if i >= |to| { assert q[i] == src[|from| + i - |to|]; }
        }
      }
      if rel != [] {
        assert Parent(src) == from + Parent(rel);
        assert Parent(q) == to + Parent(rel);
        assert IsDir(up, Parent(src));
        assert from + Parent(rel) in up;
        assert moved[to + Parent(rel)] == up[from + Parent(rel)];
      }
    }
  }

  /** A subtree grafted at `to`, beside a tree that has nothing at or below
      `to` and has the parent of `to` as a directory, keeps it well formed. */
  lemma GraftWellFormed(kept: FileSystem, moved: FileSystem, to: Path)
    requires WellFormed(kept) && to != [] && IsDir(kept, Parent(to))
    requires forall q :: q in kept ==> !Within(q, to)
    requires forall q :: q in moved ==> Within(q, to)
    requires forall q :: q in moved ==> q != [] && Canonical(q) && (q != to ==> IsDir(moved, Parent(q)))
    ensures WellFormed(kept + moved)
  {
    var r := kept + moved;
    forall q | q in r ensures q != [] && Canonical(q) && IsDir(r, Parent(q)) {
      if q !in moved {
        if Parent(q) in moved {
          assert false;
        }
      }
    }
  }

  /** What creating the parent of a fresh destination leaves: a well-formed
      tree with that parent as a directory and nothing at or below `to`. */
  lemma ParentMadeForMove(fs: FileSystem, to: Path)
    requires WellFormed(fs) && Canonical(to) && to != [] && !Exists(fs, to)
    requires MkdirP(fs, Parent(to)).Success?
    ensures var up := MkdirP(fs, Parent(to)).value;
            WellFormed(up) && IsDir(up, Parent(to)) && forall q :: q in up ==> !Within(q, to)
  {
    var up := MkdirP(fs, Parent(to)).value;
    assert Canonical(Parent(to));
    MkdirPWellFormed(fs, Parent(to));
    assert IsDir(up, Parent(to)[..|Parent(to)|]);
    assert to !in up;
    forall q | q in up ensures !Within(q, to) {
      if Within(q, to) { StoredAbove(up, to, q); }
    }
  }

  /** `move` keeps the tree well formed. */
  lemma MoveWellFormed(fs: FileSystem, from: Path, to: Path)
    requires WellFormed(fs) && Canonical(to) && to != [] && !Exists(fs, to)
    requires Move(fs, from, to).Success?
    ensures WellFormed(Move(fs, from, to).value)
  {
    var up := MkdirP(fs, Parent(to)).value;
    ParentMadeForMove(fs, to);
    var kept := Remove(up, from);
    RemoveWellFormed(up, from);
    MovedWellFormed(up, from, to);
    assert !Within(Parent(to), from);
    GraftWellFormed(kept, Moved(up, from, to), to);
  }

  /** Every directory on the way to `w`, and `w` itself, exists. */
  predicate DirChain(fs: FileSystem, w: Path) {
    forall k :: 0 <= k <= |w| ==> IsDir(fs, w[..k])
  }

  /** In a well-formed tree a stored directory has its whole chain. */
  lemma DirHasChain(fs: FileSystem, w: Path)
    requires WellFormed(fs) && IsDir(fs, w)
    ensures DirChain(fs, w)
  {
    if w != [] {
      AncestorsAreDirs(fs, w);
    }
    forall k | 0 <= k <= |w| ensures IsDir(fs, w[..k]) {
      if k == |w| { assert w[..k] == w; }
    }
  }

  /** `mkdirp` of a child of an existing directory: adds it, keeps a directory
      that is there, and fails on a file. */
  lemma MkdirChild(fs: FileSystem, w: Path, f: string)
    requires DirChain(fs, w)
    ensures MkdirP(fs, w + [f]) ==
              if w + [f] !in fs then Success(fs[w + [f] := Dir])
              else if fs[w + [f]].Dir? then Success(fs)
              else Failure(NotADirectory(w + [f]))
  {
    MkdirPExisting(fs, w);
    assert Parent(w + [f]) == w;
  }

  /** A new directory in an existing one keeps the tree well formed. */
  lemma AddDirWellFormed(fs: FileSystem, w: Path, f: string)
    requires WellFormed(fs) && IsDir(fs, w) && Canonical(w + [f]) && w + [f] !in fs
    ensures WellFormed(fs[w + [f] := Dir])
  {
    assert Parent(w + [f]) == w;
  }

  // ---- what a move does ---------------------------------------------------

  /** `fse.move` refuses a missing source, then a destination inside the
      source; past those it succeeds exactly when no file is on the way to the
      destination's parent and the destination does not exist. */
  lemma MoveSucceeds(fs: FileSystem, from: Path, to: Path)
    requires to != []
    ensures !Exists(fs, from) ==> Move(fs, from, to) == Failure(NotFound(from))
    ensures Exists(fs, from) && Within(to, from) ==> Move(fs, from, to) == Failure(MoveIntoItself(from, to))
    ensures Exists(fs, from) && !Within(to, from) && NoFileOnWay(fs, Parent(to)) && Exists(fs, to) ==>
              Move(fs, from, to) == Failure(DestinationExists(to))
    ensures Exists(fs, from) && !Within(to, from) ==>
              (Move(fs, from, to).Success? <==> NoFileOnWay(fs, Parent(to)) && !Exists(fs, to))
  {
  }

  /** Nothing is stored at or below a path that does not exist. */
  lemma NothingBelow(fs: FileSystem, w: Path)
    requires WellFormed(fs) && !Exists(fs, w)
    ensures forall q :: q in fs ==> !Within(q, w)
  {
    forall q | q in fs ensures !Within(q, w) {
      if Within(q, w) {
        StoredAbove(fs, w, q);
      }
    }
  }

  /** Two prefixes of one path: one is a prefix of the other. */
  lemma PrefixesNest(q: Path, a: Path, b: Path)
    requires Within(q, a) && Within(q, b)
    ensures Within(a, b) || Within(b, a)
  {
    if |a| <= |b| {
      assert b[..|a|] == q[..|a|];
    } else {
      assert a[..|b|] == q[..|b|];
    }
  }

  /** A successful move carries the entry `from + rel` to `to + rel`. */
  lemma MoveCarriesOne(fs: FileSystem, from: Path, to: Path, rel: Path)
    requires to != [] && Move(fs, from, to).Success? && from + rel in fs
    ensures to + rel in Move(fs, from, to).value && Move(fs, from, to).value[to + rel] == fs[from + rel]
  {
    var up := MkdirP(fs, Parent(to)).value;
    assert from + rel in up;
  }

  /** A successful move carries every entry of the subtree to the same place
      below `to`. */
  lemma MoveCarries(fs: FileSystem, from: Path, to: Path)
    requires to != [] && Move(fs, from, to).Success?
    ensures var r := Move(fs, from, to).value;
            forall rel :: from + rel in fs ==> to + rel in r && r[to + rel] == fs[from + rel]
  {
    var up := MkdirP(fs, Parent(to)).value;
    var moved := Moved(up, from, to);
    forall rel | from + rel in fs ensures to + rel in moved && moved[to + rel] == fs[from + rel] {
      assert from + rel in up;
    }
  }

  /** A move into a destination that did not exist keeps every entry outside
      the moved subtree. */
  lemma MoveKeepsOthers(fs: FileSystem, from: Path, to: Path)
    requires WellFormed(fs) && to != [] && !Exists(fs, to) && Move(fs, from, to).Success?
    ensures var r := Move(fs, from, to).value;
            forall q :: q in fs && !Within(q, from) ==> q in r && r[q] == fs[q]
  {
    NothingBelow(fs, to);
    var up := MkdirP(fs, Parent(to)).value;
    var kept := Remove(up, from);
    var moved := Moved(up, from, to);
    forall q | q in fs && !Within(q, from) ensures q in kept && q !in moved && kept[q] == fs[q] {
    }
  }

  /** After a move of a stored entry to a destination that did not exist
      nothing is left at or below `from`. */
  lemma MoveLeavesNothing(fs: FileSystem, from: Path, to: Path)
    requires WellFormed(fs) && from in fs && to != [] && !Exists(fs, to) && Move(fs, from, to).Success?
    ensures forall q :: q in Move(fs, from, to).value ==> !Within(q, from)
  {
    var up := MkdirP(fs, Parent(to)).value;
    var moved := Moved(up, from, to);
    forall q | q in moved ensures !Within(q, from) {
      if Within(q, from) {
        PrefixesNest(q, from, to);
        if Within(from, to) {
          StoredAbove(fs, to, from);
        }
      }
    }
  }

  /** Every entry a move adds is in the moved subtree or a directory made on
      the way to `to`. */
  lemma MoveAddsOnly(fs: FileSystem, from: Path, to: Path)
    requires to != [] && Move(fs, from, to).Success?
    ensures forall q :: q in Move(fs, from, to).value && q !in fs ==> Within(q, to) || Within(Parent(to), q)
  {
  }
}
