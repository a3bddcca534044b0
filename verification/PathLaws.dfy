/** What pathname resolution guarantees, whatever the file systems answer. */
module PathLaws {
  import opened Common
  import opened PathText
  import opened PathWalk

  // ------------------------------------------------- holds on the error path

  /** The whole walk across mounts has only one way to leave holds wrong: a first mount
      crossed, and a later one failing. */
  predicate StuckLater(fs: FileSys, c: nat)
    requires fs.Valid() && c < fs.size
  {
    && fs.mounted(c) && !Interrupted(fs, c, 0) && fs.vfsRoot(c).Ok?
    && Cross(fs, fs.vfsRoot(c).value).Stuck?
  }

  lemma {:induction false} CrossSinks(fs: FileSys, v: nat)
    requires fs.Valid() && v < fs.size && Cross(fs, v).Stuck?
    ensures fs.height(Cross(fs, v).at) <= fs.height(v)
    decreases fs.height(v)
  {
    if !Interrupted(fs, v, 0) && fs.vfsRoot(v).Ok? {
      CrossSinks(fs, fs.vfsRoot(v).value);
    }
  }

  lemma StuckAt(fs: FileSys, c: nat)
    requires fs.Valid() && c < fs.size && Cross(fs, c).Stuck?
    ensures Cross(fs, c).at != c <==> StuckLater(fs, c)
  {
    if StuckLater(fs, c) {
      CrossSinks(fs, fs.vfsRoot(c).value);
    }
  }

  /** The lookup of one name leaves the counts wrong exactly when traverse fails after its
      first crossing: the vnode found is released twice and the one reached never. */
  lemma StrayIff(fs: FileSys, vp: nat, name: Path, wantDir: bool)
    requires fs.Valid() && vp < fs.size
    ensures var h := LookIn(fs, vp, name, wantDir);
            var d := if name == ".." then Climb(fs, vp) else vp;
            h.Jam? && h.stray.Strayed? <==>
            && !(name == ".." && fs.AtRoot(d))
            && fs.lookup(d, name, wantDir).Ok?
            && StuckLater(fs, fs.lookup(d, name, wantDir).value)
  {
    var d := if name == ".." then Climb(fs, vp) else vp;
    if fs.lookup(d, name, wantDir).Ok? {
      var c := fs.lookup(d, name, wantDir).value;
      if Cross(fs, c).Stuck? { StuckAt(fs, c); }
    }
  }

  /** A root directory, vnode 0, in it m, vnode 1, whose mounted root, vnode 2, is mounted on
      by a file system that cannot give its own. */
  function TwoMounts(): FileSys
  {
    FileSys(3, 0, None, 0,
            v => VDIR, v => false, v => 0,
            (v, n, d) => if n == "m" then Ok(1) else Err(ENOENT),
            v => v > 0, v => 0, (v, i) => false, v => if v == 1 then Ok(2) else Err(EINVAL), v => Err(EINVAL),
            v => 0, v => if v == 1 then 1 else 0)
  }

  lemma LoneName(c: char)
    requires c != '/' && c != '\0'
    ensures FixSlash([c]) == [c] && First([c]) == [c] && Rest([c]) == [] && CString([c]) == [c]
  {
    assert [c][1..] == [] && FirstLen([c]) == 1 && CString([]) == [];
  }

  /** Looking m up fails with the hold on 1 given back twice and the one on 2 kept. */
  lemma StrayExample(ask: Ask)
    ensures TwoMounts().Valid() && StuckLater(TwoMounts(), 1)
    ensures LookIn(TwoMounts(), 0, "m", ask.wantDir) == Jam(EINVAL, Strayed(1, 2))
    ensures Interpret(TwoMounts(), 0, "m", 0, ask) == Failed(EINVAL, Strayed(1, 2))
  {
    hide FixSlash, First, Rest, CString, SkipSlash;
    var fs := TwoMounts();
    LoneName('m');
    assert Cross(fs, 2) == Stuck(EINVAL, 2);
    assert Cross(fs, 1) == Stuck(EINVAL, 2);
    assert fs.lookup(0, "m", ask.wantDir) == Ok(1);
    assert Walk(fs, 0, "m", 0, ask) == Failed(EINVAL, Strayed(1, 2));
  }

  /** No root of a mounted file system is itself mounted on. */
  predicate NoStackedMounts(fs: FileSys)
  {
    forall v :: 0 <= v < fs.size && fs.mounted(v) && fs.vfsRoot(v).Ok? ==> !fs.mounted(fs.vfsRoot(v).value)
  }

  predicate Kept(o: Outcome)
  {
    o.Failed? ==> o.stray == Balanced
  }

  /** Without stacked mounts every lookup, failed or not, leaves the counts right. */
  lemma {:induction false} NoStraysInterpret(fs: FileSys, vp: nat, s: Path, nlink: nat, ask: Ask)
    requires fs.Valid() && vp < fs.size && nlink <= MAXSYMLINKS && NoStackedMounts(fs)
    ensures Kept(Interpret(fs, vp, s, nlink, ask))
    decreases MAXSYMLINKS - nlink, |s| + 1
  {
    if s != [] {
      if s[0] == '/' { NoStraysWalk(fs, fs.Root(), FixSlash(SkipSlash(s)), nlink, ask); }
      else { NoStraysWalk(fs, vp, FixSlash(s), nlink, ask); }
    }
  }

  lemma {:induction false} NoStraysWalk(fs: FileSys, vp: nat, s: Path, nlink: nat, ask: Ask)
    requires fs.Valid() && vp < fs.size && nlink <= MAXSYMLINKS && NoStackedMounts(fs)
    ensures Kept(Walk(fs, vp, s, nlink, ask))
    decreases MAXSYMLINKS - nlink, |s|, 0
  {
    var name := CString(First(s));
    if fs.vtype(vp) == VDIR && |First(s)| < MAXNAMELEN && name != [] {
      StrayIff(fs, vp, name, ask.wantDir);
      var h := LookIn(fs, vp, name, ask.wantDir);
      if h.Hit? {
        if !h.asIs && fs.vtype(h.v) == VLNK && (ask.follow || Rest(s) != []) {
          assert Walk(fs, vp, s, nlink, ask) == Followed(fs, h.dir, h.v, Rest(s), nlink, ask);
          if nlink < MAXSYMLINKS && fs.readlink(h.v).Ok? {
            NoStraysInterpret(fs, h.dir, OrDot(fs.readlink(h.v).value) + Rest(s), nlink + 1, ask);
          }
        } else if Rest(s) != [] {
          NoStraysWalk(fs, h.v, SkipSlash(Rest(s)), nlink, ask);
        }
      }
    }
  }

  // ------------------------------------------------- paths as lists of names

  /** Resolution on the list of names of a path: slashes are gone, and so are the lengths a
      link's text has to fit in. */
  function ListWalk(fs: FileSys, vp: nat, names: seq<Path>, nlink: nat, ask: Ask): (o: Outcome)
    requires fs.Valid() && vp < fs.size && nlink <= MAXSYMLINKS
    decreases MAXSYMLINKS - nlink, |names|
  {
    if fs.vtype(vp) != VDIR then Failed(ENOTDIR, Balanced)
    else if names == [] then
      if ask.wantDir then Failed(EINVAL, Balanced) else Found(None, Some(vp), ".")
    else if |names[0]| >= MAXNAMELEN then Failed(ENAMETOOLONG, Balanced)
    else
      var name, rest := names[0], names[1..];
      match LookIn(fs, vp, name, ask.wantDir)
      case Jam(e, stray) => Failed(e, stray)
      case Miss(d, e) =>
        if rest != [] || !ask.wantDir || e != ENOENT then Failed(e, Balanced)
        else Found(Some(d), None, name)
      case Hit(d, v, asIs) =>
        if !asIs && fs.vtype(v) == VLNK && (ask.follow || rest != []) then
          if nlink == MAXSYMLINKS then Failed(ELOOP, Balanced)
          else
            match fs.readlink(v)
            case Err(e) => Failed(e, Balanced)
            case Ok(text) =>
              var link := OrDot(text);
              ListWalk(fs, if link[0] == '/' then fs.Root() else d, Pieces(link) + rest, nlink + 1, ask)
        else if rest == [] then
          if !ask.wantDir then Found(None, Some(v), name)
          else if d == v then Failed(EINVAL, Balanced)
          else Found(Some(d), Some(v), name)
        else ListWalk(fs, v, rest, nlink, ask)
  }

  /** No null bytes, as in the strings of a C program. */
  predicate Clean(s: Path) { '\0' !in s }

  ghost predicate CleanLinks(fs: FileSys)
  {
    forall v: nat :: fs.readlink(v).Ok? ==> Clean(fs.readlink(v).value)
  }

  /** Neither end of the path is a slash. */
  predicate Trimmed(s: Path)
  {
    s != [] ==> s[0] != '/' && s[|s| - 1] != '/'
  }

  lemma {:induction false} SomePiece(s: Path)
    requires s != [] && s[|s| - 1] != '/'
    ensures Pieces(s) != []
    decreases |s|
  {
    if s[0] == '/' {
      SomePiece(s[1..]);
      PiecesSlash(s);
    } else {
      PiecesName(s);
    }
  }

  lemma {:induction false} SkipKeepsEnd(s: Path)
    requires s != [] && s[|s| - 1] != '/'
    ensures SkipSlash(s) != [] && Trimmed(SkipSlash(s)) && (Clean(s) ==> Clean(SkipSlash(s)))
    ensures |SkipSlash(s)| <= |s|
  {
    if s[0] == '/' { SkipKeepsEnd(s[1..]); }
  }

  lemma {:induction false} SkipKeepsClean(s: Path)
    requires Clean(s)
    ensures Clean(SkipSlash(s))
  {
    if s != [] && s[0] == '/' { SkipKeepsClean(s[1..]); }
  }

  lemma FixTrims(s: Path)
    requires s != [] ==> s[0] != '/'
    ensures Trimmed(FixSlash(s)) && (Clean(s) ==> Clean(FixSlash(s)))
  {}

  /** The components of a trimmed path are its pieces, in order. */
  lemma TrimmedPieces(s: Path)
    requires Trimmed(s) && s != [] && Clean(s)
    ensures First(s) != [] && CString(First(s)) == First(s) && Clean(Rest(s))
    ensures Pieces(s) == [First(s)] + Pieces(SkipSlash(Rest(s)))
    ensures Rest(s) != [] ==> Trimmed(SkipSlash(Rest(s))) && SkipSlash(Rest(s)) != [] && Clean(SkipSlash(Rest(s)))
    ensures Rest(s) == [] <==> Pieces(Rest(s)) == []
    ensures Pieces(SkipSlash(Rest(s))) == Pieces(Rest(s))
  {
    hide Pieces;
    PiecesName(s);
    PiecesSkip(Rest(s));
    if Rest(s) != [] {
      SkipKeepsEnd(Rest(s));
      SomePiece(Rest(s));
    } else {
      PiecesEmpty();
    }
  }

  /** What two resolutions may differ by: a link's text that did not fit. */
  predicate Agree(o: Outcome, l: Outcome)
  {
    o == l || o == Failed(ENAMETOOLONG, Balanced)
  }

  /** Resolution of a path is resolution of its names: how many slashes separate or follow
      them never matters, except that a link may fail to fit in the buffer. */
  lemma {:induction false} WalkIsListWalk(fs: FileSys, vp: nat, s: Path, nlink: nat, ask: Ask)
    requires fs.Valid() && CleanLinks(fs) && vp < fs.size && nlink <= MAXSYMLINKS && Trimmed(s) && Clean(s)
    ensures Agree(Walk(fs, vp, s, nlink, ask), ListWalk(fs, vp, Pieces(s), nlink, ask))
    ensures (forall v :: 0 <= v < fs.size ==> fs.vtype(v) != VLNK) ==>
              Walk(fs, vp, s, nlink, ask) == ListWalk(fs, vp, Pieces(s), nlink, ask)
    decreases MAXSYMLINKS - nlink, |s|, 0
  {
    hide Pieces, LookIn, FileSys.Valid, SkipSlash, FixSlash, Interpret;
    if s == [] {
      PiecesEmpty();
    } else {
      TrimmedPieces(s);
      var name, rest, names := First(s), Rest(s), Pieces(s);
      assert names[0] == name && names[1..] == Pieces(rest);
      if fs.vtype(vp) == VDIR && |name| < MAXNAMELEN {
        var h := LookIn(fs, vp, name, ask.wantDir);
        if h.Hit? {
          if !h.asIs && fs.vtype(h.v) == VLNK && (ask.follow || rest != []) {
            assert Walk(fs, vp, s, nlink, ask) == Followed(fs, h.dir, h.v, rest, nlink, ask);
            if nlink < MAXSYMLINKS && fs.readlink(h.v).Ok? {
              var link := OrDot(fs.readlink(h.v).value);
              if |rest| + |link| < MAXPATHLEN {
                assert Clean(link + rest);
                PiecesApart(link, rest);
                InterpretIsListWalk(fs, h.dir, link + rest, nlink + 1, ask);
                assert (link + rest)[0] == link[0];
              }
            }
          } else if rest != [] {
            WalkIsListWalk(fs, h.v, SkipSlash(rest), nlink, ask);
          }
        }
      }
    }
  }

  lemma {:induction false} InterpretIsListWalk(fs: FileSys, vp: nat, s: Path, nlink: nat, ask: Ask)
    requires fs.Valid() && CleanLinks(fs) && vp < fs.size && nlink <= MAXSYMLINKS && Clean(s) && s != []
    ensures var at := if s[0] == '/' then fs.Root() else vp;
            Agree(Interpret(fs, vp, s, nlink, ask), ListWalk(fs, at, Pieces(s), nlink, ask))
    ensures (forall v :: 0 <= v < fs.size ==> fs.vtype(v) != VLNK) ==>
              Interpret(fs, vp, s, nlink, ask) == ListWalk(fs, if s[0] == '/' then fs.Root() else vp, Pieces(s), nlink, ask)
    decreases MAXSYMLINKS - nlink, |s|, 1
  {
    hide Pieces, SkipSlash, FixSlash, Walk, ListWalk;
    if s[0] == '/' {
      var t := SkipSlash(s);
      SkipKeepsClean(s);
      PiecesSkip(s);
      FixTrims(t);
      PiecesFix(t);
      WalkIsListWalk(fs, fs.Root(), FixSlash(t), nlink, ask);
    } else {
      FixTrims(s);
      PiecesFix(s);
      WalkIsListWalk(fs, vp, FixSlash(s), nlink, ask);
    }
  }

  /** Two spellings of one path: the same names, and both from the root or both not. */
  lemma SpellingsAgree(fs: FileSys, vp: nat, s: Path, t: Path, ask: Ask)
    requires fs.Valid() && CleanLinks(fs) && vp < fs.size && Clean(s) && Clean(t) && s != [] && t != []
    requires (s[0] == '/') == (t[0] == '/') && Pieces(s) == Pieces(t)
    ensures var a, b := Interpret(fs, vp, s, 0, ask), Interpret(fs, vp, t, 0, ask);
            a == b || a == Failed(ENAMETOOLONG, Balanced) || b == Failed(ENAMETOOLONG, Balanced)
  {
    InterpretIsListWalk(fs, vp, s, 0, ask);
    InterpretIsListWalk(fs, vp, t, 0, ask);
  }

  // ------------------------------------------------- slashes at the end

  lemma {:induction false} SkipSlashAppend(s: Path)
    ensures SkipSlash(s + "/") == if SkipSlash(s) == [] then [] else SkipSlash(s) + "/"
  {
    if s == [] {
      assert s + "/" == "/" && SkipSlash("/"[1..]) == [];
    } else if s[0] == '/' {
      assert (s + "/")[1..] == s[1..] + "/";
      SkipSlashAppend(s[1..]);
    }
  }

  lemma FixSlashAppend(s: Path)
    ensures FixSlash(s + "/") == FixSlash(s)
  {
    var t := s + "/";
    assert t[..|t| - 1] == s && t[|t| - 1] == '/';
  }

  /** In particular a slash at the end is dropped, even after something that is no directory. */
  lemma TrailingSlashesDropped(fs: FileSys, vp: nat, s: Path, nlink: nat, ask: Ask)
    requires fs.Valid() && vp < fs.size && nlink <= MAXSYMLINKS && s != []
    ensures Interpret(fs, vp, s + "/", nlink, ask) == Interpret(fs, vp, s, nlink, ask)
  {
    hide Walk, SkipSlash, FixSlash;
    SkipSlashAppend(s);
    FixSlashAppend(s);
    FixSlashAppend(SkipSlash(s));
    assert FixSlash(SkipSlash(s + "/")) == FixSlash(SkipSlash(s));
  }

  /** A lookup that does not follow a link at the end answers as one that does, unless it
      stops on such a link. */
  predicate SameUnlessLink(fs: FileSys, o: Outcome, followed: Outcome)
  {
    (o.Found? && o.comp.Some? && fs.vtype(o.comp.value) == VLNK) || followed == o
  }

  lemma {:induction false} FollowSame(fs: FileSys, vp: nat, s: Path, nlink: nat)
    requires fs.Valid() && vp < fs.size && nlink <= MAXSYMLINKS
    ensures SameUnlessLink(fs, Interpret(fs, vp, s, nlink, Ask(false, false)), Interpret(fs, vp, s, nlink, Ask(true, false)))
    decreases MAXSYMLINKS - nlink, |s| + 1
  {
    if s != [] {
      if s[0] == '/' { FollowSameWalk(fs, fs.Root(), FixSlash(SkipSlash(s)), nlink); }
      else { FollowSameWalk(fs, vp, FixSlash(s), nlink); }
    }
  }

  lemma {:induction false} FollowSameWalk(fs: FileSys, vp: nat, s: Path, nlink: nat)
    requires fs.Valid() && vp < fs.size && nlink <= MAXSYMLINKS
    ensures SameUnlessLink(fs, Walk(fs, vp, s, nlink, Ask(false, false)), Walk(fs, vp, s, nlink, Ask(true, false)))
    decreases MAXSYMLINKS - nlink, |s|, 0
  {
    hide Interpret, FixSlash, SkipSlash, FileSys.Valid, LookIn;
    var name := CString(First(s));
    if fs.vtype(vp) == VDIR && |First(s)| < MAXNAMELEN && name != [] {
      var h := LookIn(fs, vp, name, false);
      if h.Hit? && Rest(s) != [] {
        if !h.asIs && fs.vtype(h.v) == VLNK {
          assert Walk(fs, vp, s, nlink, Ask(false, false)) == Followed(fs, h.dir, h.v, Rest(s), nlink, Ask(false, false));
          assert Walk(fs, vp, s, nlink, Ask(true, false)) == Followed(fs, h.dir, h.v, Rest(s), nlink, Ask(true, false));
          if nlink < MAXSYMLINKS && fs.readlink(h.v).Ok? {
            FollowSame(fs, h.dir, OrDot(fs.readlink(h.v).value) + Rest(s), nlink + 1);
          }
        } else {
          FollowSameWalk(fs, h.v, SkipSlash(Rest(s)), nlink);
        }
      }
    }
  }

  predicate OnDirectory(fs: FileSys, o: Outcome)
  {
    o.Found? && o.comp.Some? && fs.vtype(o.comp.value) == VDIR
  }

  /** Section 4.13 of POSIX.1-2017 for a path with a slash at the end: `s` is resolved with a
      link at its end followed, and the result counts only if it is a directory. */
  predicate Meets413(fs: FileSys, vp: nat, s: Path, ask: Ask)
    requires fs.Valid() && vp < fs.size
  {
    var through := Interpret(fs, vp, s, 0, Ask(true, false));
    var slashed := Interpret(fs, vp, s + "/", 0, ask);
    if OnDirectory(fs, through) then slashed.Found? && slashed.comp == through.comp else slashed.Failed?
  }

  /** lookuppn does with `s/` what section 4.13 asks for exactly when `s` cannot be looked up
      or is a directory. */
  lemma Trailing413Iff(fs: FileSys, vp: nat, s: Path, ask: Ask)
    requires fs.Valid() && vp < fs.size && s != [] && !ask.wantDir
    ensures var o := Interpret(fs, vp, s, 0, ask);
            Meets413(fs, vp, s, ask) <==> o.Failed? || OnDirectory(fs, o)
  {
    hide Interpret;
    TrailingSlashesDropped(fs, vp, s, 0, ask);
    FollowSame(fs, vp, s, 0);
  }

  /** So a link at the end that is not followed never does: it is found in place of what it
      names, whatever that is. */
  lemma UnfollowedLinkMisses413(fs: FileSys, vp: nat, s: Path, ask: Ask)
    requires fs.Valid() && vp < fs.size && s != [] && !ask.wantDir
    requires var o := Interpret(fs, vp, s, 0, ask); o.Found? && o.comp.Some? && fs.vtype(o.comp.value) == VLNK
    ensures var w := Interpret(fs, vp, s + "/", 0, ask);
            w.Found? && w.comp.Some? && fs.vtype(w.comp.value) == VLNK && !Meets413(fs, vp, s, ask)
  {
    hide Interpret;
    TrailingSlashesDropped(fs, vp, s, 0, ask);
    Trailing413Iff(fs, vp, s, ask);
  }

  /** A root directory, vnode 0, with a file f in it, vnode 1. */
  function OneFile(): FileSys
  {
    FileSys(2, 0, None, 0,
            v => if v == 0 then VDIR else Other, v => false, v => 0,
            (v, n, d) => if n == "f" then Ok(1) else Err(ENOENT),
            v => false, v => 0, (v, i) => false, v => Err(EINVAL), v => Err(EINVAL), v => 0, v => 0)
  }

  /** f/ is found, and is no directory. */
  lemma SlashAfterFileExample(ask: Ask)
    requires !ask.wantDir
    ensures OneFile().Valid() && OneFile().vtype(1) != VDIR
    ensures Interpret(OneFile(), 0, "f", 0, ask) == Found(None, Some(1), "f")
    ensures Interpret(OneFile(), 0, "f/", 0, ask) == Found(None, Some(1), "f")
    ensures !Meets413(OneFile(), 0, "f", ask)
  {
    hide FixSlash, First, Rest, CString, SkipSlash, Meets413;
    var fs := OneFile();
    LoneName('f');
    assert LookIn(fs, 0, "f", false) == Hit(0, 1, false);
    assert Walk(fs, 0, "f", 0, ask) == Found(None, Some(1), "f");
    assert "f" + "/" == "f/";
    TrailingSlashesDropped(fs, 0, "f", 0, ask);
    Trailing413Iff(fs, 0, "f", ask);
  }

  // ------------------------------------------------- out of mounts and back

  /** The directories ".." goes through from `v`: each but the last is the root of a mounted file
      system, not the process's, and covers the next one. */
  predicate OutOfMounts(fs: FileSys, c: seq<nat>, v: nat)
    requires fs.Valid()
  {
    && c != [] && c[0] == v && (forall i :: 0 <= i < |c| ==> c[i] < fs.size)
    && (forall i :: 0 <= i < |c| - 1 ==> fs.vroot(c[i]) && !fs.AtRoot(c[i]) && c[i + 1] == fs.covered(c[i]))
    && (fs.AtRoot(c[|c| - 1]) || !fs.vroot(c[|c| - 1]))
  }

  /** There is one such way, ... */
  lemma {:induction false} WayOut(fs: FileSys, v: nat) returns (c: seq<nat>)
    requires fs.Valid() && v < fs.size
    ensures OutOfMounts(fs, c, v)
    decreases fs.depth(v)
  {
    if fs.AtRoot(v) || !fs.vroot(v) {
      c := [v];
    } else {
      var rest := WayOut(fs, fs.covered(v));
      c := [v] + rest;
    }
  }

  /** ... and ".." is looked up in the last of them: it is that directory itself at the process's
      root, and what VOP_LOOKUP says there otherwise. */
  lemma {:induction false} DotDotIsOutside(fs: FileSys, c: seq<nat>, v: nat, wantDir: bool)
    requires fs.Valid() && v < fs.size && OutOfMounts(fs, c, v)
    ensures var d := c[|c| - 1];
            var h := LookIn(fs, v, "..", wantDir);
            && (fs.AtRoot(d) ==> h == Hit(d, d, true))
            && (!fs.AtRoot(d) ==>
                  match fs.lookup(d, "..", wantDir)
                  case Err(e) => h == Miss(d, e)
                  case Ok(w) => w < fs.size && match Cross(fs, w)
                                case Across(u) => h == Hit(d, u, false)
                                case Stuck(e, _) => h.Jam? && h.error == e)
    decreases |c|
  {
    if |c| > 1 {
      assert c[1..][|c| - 2] == c[|c| - 1];
      DotDotIsOutside(fs, c[1..], c[1], wantDir);
    }
  }

  /** In particular ".." from the root of a mounted file system is ".." from the directory it covers, ... */
  lemma OneMountOut(fs: FileSys, v: nat, wantDir: bool)
    requires fs.Valid() && v < fs.size && fs.vroot(v) && !fs.AtRoot(v)
    ensures fs.covered(v) < fs.size && LookIn(fs, v, "..", wantDir) == LookIn(fs, fs.covered(v), "..", wantDir)
  {}

  lemma DotDotFromMount(fs: FileSys, v: nat, nlink: nat, ask: Ask)
    requires fs.Valid() && v < fs.size && fs.vroot(v) && !fs.AtRoot(v) && nlink <= MAXSYMLINKS
    requires fs.vtype(v) == VDIR && fs.vtype(fs.covered(v)) == VDIR
    ensures fs.covered(v) < fs.size && Interpret(fs, v, "..", nlink, ask) == Interpret(fs, fs.covered(v), "..", nlink, ask)
  {
    hide LookIn, FileSys.Valid, First, Rest, CString, FixSlash, Proceed;
    OneMountOut(fs, v, ask.wantDir);
    LoneDots();
  }

  lemma LoneDots()
    ensures FixSlash("..") == ".." && First("..") == ".." && Rest("..") == [] && CString("..") == ".."
  {
    LoneName('.');
    assert ".."[1..] == "." && FirstLen("..") == 2 && [".."[0]] + CString(".") == "..";
  }

  /** The mount table is in order: what is mounted on a directory covers it, and is not the
      process's root. */
  predicate MountsAgree(fs: FileSys)
  {
    forall v :: 0 <= v < fs.size && fs.mounted(v) && fs.vfsRoot(v).Ok? ==>
      var r := fs.vfsRoot(v).value;
      fs.vroot(r) && !fs.AtRoot(r) && fs.covered(r) == v
  }

  /** ... so that going down through mounts and up again leads past them. */
  lemma {:induction false} DownAndUp(fs: FileSys, v: nat, w: nat, wantDir: bool)
    requires fs.Valid() && v < fs.size && MountsAgree(fs) && Cross(fs, v) == Across(w)
    ensures LookIn(fs, w, "..", wantDir) == LookIn(fs, v, "..", wantDir)
    decreases fs.height(v)
  {
    hide LookIn;
    if fs.mounted(v) {
      var r := fs.vfsRoot(v).value;
      DownAndUp(fs, r, w, wantDir);
      OneMountOut(fs, r, wantDir);
    }
  }

  // ------------------------------------------------- the parent and the root

  /** When the parent is asked for, the name handed back is the component's entry in the
      directory handed back, or is missing there; the component is never the directory itself. */
  predicate EntryOf(fs: FileSys, o: Outcome)
    requires fs.Valid()
  {
    o.Found? ==>
      && o.dir.Some? && o.dir.value < fs.size
      && var a := fs.lookup(o.dir.value, CString(o.name), true);
         if o.comp == None then a == Err(ENOENT)
         else a.Ok? && a.value < fs.size && Cross(fs, a.value) == Across(o.comp.value) && o.comp.value != o.dir.value
  }

  lemma {:induction false} ParentHoldsEntry(fs: FileSys, vp: nat, s: Path, nlink: nat, ask: Ask)
    requires fs.Valid() && vp < fs.size && nlink <= MAXSYMLINKS && ask.wantDir
    ensures EntryOf(fs, Interpret(fs, vp, s, nlink, ask))
    decreases MAXSYMLINKS - nlink, |s| + 1
  {
    hide EntryOf;
    if s == [] {
      FailedIsFine(fs, Interpret(fs, vp, s, nlink, ask));
    } else if s[0] == '/' {
      ParentWalk(fs, fs.Root(), FixSlash(SkipSlash(s)), nlink, ask);
    } else {
      ParentWalk(fs, vp, FixSlash(s), nlink, ask);
    }
  }

  lemma FailedIsFine(fs: FileSys, o: Outcome)
    requires fs.Valid() && o.Failed?
    ensures EntryOf(fs, o)
  {}

  lemma HitIsEntry(fs: FileSys, vp: nat, name: Path, wantDir: bool)
    requires fs.Valid() && vp < fs.size
    ensures var h := LookIn(fs, vp, name, wantDir);
            && (h.Hit? && h.asIs ==> h.dir == h.v)
            && (h.Hit? && !h.asIs ==>
                  var a := fs.lookup(h.dir, name, wantDir);
                  a.Ok? && a.value < fs.size && Cross(fs, a.value) == Across(h.v))
            && (h.Miss? ==> fs.lookup(h.dir, name, wantDir) == Err(h.error))
  {}

  lemma {:induction false} ParentWalk(fs: FileSys, vp: nat, s: Path, nlink: nat, ask: Ask)
    requires fs.Valid() && vp < fs.size && nlink <= MAXSYMLINKS && ask.wantDir
    ensures EntryOf(fs, Walk(fs, vp, s, nlink, ask))
    decreases MAXSYMLINKS - nlink, |s|, 0
  {
    hide Interpret, FixSlash, SkipSlash, FileSys.Valid, LookIn;
    var name := CString(First(s));
    if fs.vtype(vp) == VDIR && |First(s)| < MAXNAMELEN && name != [] {
      HitIsEntry(fs, vp, name, true);
      var h := LookIn(fs, vp, name, true);
      if h.Hit? {
        if !h.asIs && fs.vtype(h.v) == VLNK && (ask.follow || Rest(s) != []) {
          assert Walk(fs, vp, s, nlink, ask) == Followed(fs, h.dir, h.v, Rest(s), nlink, ask);
          if nlink < MAXSYMLINKS && fs.readlink(h.v).Ok? {
            ParentHoldsEntry(fs, h.dir, OrDot(fs.readlink(h.v).value) + Rest(s), nlink + 1, ask);
          }
        } else if Rest(s) != [] {
          ParentWalk(fs, h.v, SkipSlash(Rest(s)), nlink, ask);
        }
      }
    }
  }

  /** However often ".." is repeated, it does not lead out of the process's root. */
  lemma {:induction false} RootIsTheTop(fs: FileSys, names: seq<Path>, nlink: nat, ask: Ask)
    requires fs.Valid() && nlink <= MAXSYMLINKS && fs.vtype(fs.Root()) == VDIR && !ask.wantDir
    requires forall k :: 0 <= k < |names| ==> names[k] == ".."
    ensures var o := ListWalk(fs, fs.Root(), names, nlink, ask);
            o.Found? && o.comp == Some(fs.Root())
  {
    if names != [] {
      assert Climb(fs, fs.Root()) == fs.Root();
      RootIsTheTop(fs, names[1..], nlink, ask);
    }
  }
}
