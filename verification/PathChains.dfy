/** Resolution read off the file systems: the chain of vnodes a path leads along, what a link
    stands for, and how paths compose. */
module PathChains {
  import opened Common
  import opened PathText
  import opened PathWalk
  import opened PathLaws

  // ------------------------------------------------- down through mounts

  /** Some sleep on the mount's lock is interrupted. */
  predicate Woken(fs: FileSys, v: nat)
  {
    exists i: nat :: i < fs.naps(v) && fs.killed(v, i)
  }

  lemma {:induction false} WokenIff(fs: FileSys, v: nat, i: nat)
    ensures Interrupted(fs, v, i) <==> exists j: nat :: i <= j < fs.naps(v) && fs.killed(v, j)
    decreases fs.naps(v) - i
  {
    if i < fs.naps(v) && !fs.killed(v, i) { WokenIff(fs, v, i + 1); }
  }

  /** Each of the vnodes but the last is mounted on, its lock is had, and the next is the root of what is
      mounted there. */
  predicate DownMounts(fs: FileSys, m: seq<nat>)
  {
    && m != []
    && forall i :: 0 <= i < |m| - 1 ==> fs.mounted(m[i]) && !Woken(fs, m[i]) && fs.vfsRoot(m[i]) == Ok(m[i + 1])
  }

  /** Crossing the mounts on a vnode goes down them to the last, or stops at the first whose lock is not
      had or that gives no root. */
  lemma {:induction false} WayDown(fs: FileSys, v: nat) returns (m: seq<nat>)
    requires fs.Valid() && v < fs.size
    ensures DownMounts(fs, m) && m[0] == v
    ensures var w := m[|m| - 1];
            match Cross(fs, v)
            case Across(x) => x == w && !fs.mounted(w)
            case Stuck(e, at) => at == w && fs.mounted(w) && if Woken(fs, w) then e == EINTR else fs.vfsRoot(w) == Err(e)
    decreases fs.height(v)
  {
    WokenIff(fs, v, 0);
    if fs.mounted(v) && !Interrupted(fs, v, 0) && fs.vfsRoot(v).Ok? {
      var rest := WayDown(fs, fs.vfsRoot(v).value);
      m := [v] + rest;
    } else {
      m := [v];
    }
  }

  // ------------------------------------------------- paths without links

  /** `w` is what `name` leads to from directory `v`. */
  predicate Leads(fs: FileSys, v: nat, name: Path, w: nat)
    requires fs.Valid()
  {
    && v < fs.size && fs.vtype(v) == VDIR && |name| < MAXNAMELEN
    && var h := LookIn(fs, v, name, false); h.Hit? && h.v == w
  }

  /** A chain of directories, each led to by the next name from the one before. */
  predicate Chain(fs: FileSys, c: seq<nat>, names: seq<Path>)
    requires fs.Valid()
  {
    0 < |c| <= |names| + 1 && c[0] < fs.size && forall i :: 0 <= i < |c| - 1 ==> Leads(fs, c[i], names[i], c[i + 1])
  }

  /** Why no name leads on from `v`. */
  predicate Stops(fs: FileSys, v: nat, name: Path, error: nat)
    requires fs.Valid() && v < fs.size
  {
    if fs.vtype(v) != VDIR then error == ENOTDIR
    else if |name| >= MAXNAMELEN then error == ENAMETOOLONG
    else match LookIn(fs, v, name, false)
         case Hit(_, _, _) => false
         case Miss(_, e) => error == e
         case Jam(e, _) => error == e
  }

  ghost predicate NoLinks(fs: FileSys)
  {
    forall v: nat :: v < fs.size ==> fs.vtype(v) != VLNK
  }

  /** Where there are no links, resolution finds the vnode at the end of the chain, or fails with the
      error of the first name that leads nowhere. */
  lemma {:induction false} FollowsChain(fs: FileSys, vp: nat, names: seq<Path>, nlink: nat, ask: Ask) returns (c: seq<nat>)
    requires fs.Valid() && vp < fs.size && nlink <= MAXSYMLINKS && NoLinks(fs) && !ask.wantDir && names != []
    ensures Chain(fs, c, names) && c[0] == vp && c[|c| - 1] < fs.size
    ensures var w := c[|c| - 1];
            match ListWalk(fs, vp, names, nlink, ask)
            case Found(d, comp, name) => |c| == |names| + 1 && d == None && comp == Some(w) && name == names[|names| - 1]
            case Failed(e, _) => |c| <= |names| && Stops(fs, w, names[|c| - 1], e)
    decreases |names|
  {
    hide LookIn, FileSys.Valid;
    c := [vp];
    if fs.vtype(vp) == VDIR && |names[0]| < MAXNAMELEN {
      var h := LookIn(fs, vp, names[0], false);
      if h.Hit? {
        if |names| == 1 {
          c := [vp, h.v];
        } else {
          var rest := FollowsChain(fs, h.v, names[1..], nlink, ask);
          c := [vp] + rest;
          ChainOn(fs, vp, rest, names);
        }
      }
    }
  }

  lemma ChainOn(fs: FileSys, v: nat, c: seq<nat>, names: seq<Path>)
    requires fs.Valid() && v < fs.size && names != [] && Chain(fs, c, names[1..]) && Leads(fs, v, names[0], c[0])
    ensures Chain(fs, [v] + c, names)
  {
    hide Leads;
    var d := [v] + c;
    forall i | 0 <= i < |d| - 1 ensures Leads(fs, d[i], names[i], d[i + 1]) {
      if i > 0 { assert names[1..][i - 1] == names[i] && Leads(fs, c[i - 1], names[1..][i - 1], c[i]); }
    }
  }

  // ------------------------------------------------- links

  /** The rest of a path is resolved from what its beginning leads to: at whatever count of links. */
  predicate GoesOn(fs: FileSys, o: Outcome, w: nat, rest: seq<Path>, nlink: nat, ask: Ask, m: nat)
    requires fs.Valid() && w < fs.size
  {
    nlink <= m <= MAXSYMLINKS && o == ListWalk(fs, w, rest, m, ask)
  }

  lemma RootInRange(fs: FileSys)
    requires fs.Valid()
    ensures fs.Root() < fs.size
  {}

  /** Paths compose: a path `a/b` is `b` resolved from the directory that `a` leads to. */
  lemma {:induction false} PathsCompose(fs: FileSys, vp: nat, a: seq<Path>, b: seq<Path>, nlink: nat, ask: Ask) returns (m: nat)
    requires fs.Valid() && vp < fs.size && nlink <= MAXSYMLINKS && !ask.wantDir && b != []
    requires ListWalk(fs, vp, a, nlink, Ask(true, false)).Found?
    ensures var o := ListWalk(fs, vp, a, nlink, Ask(true, false));
            o.comp.Some? && o.comp.value < fs.size
            && GoesOn(fs, ListWalk(fs, vp, a + b, nlink, ask), o.comp.value, b, nlink, ask, m)
    decreases MAXSYMLINKS - nlink, |a|
  {
    hide LookIn, FileSys.Valid, Pieces;
    m := nlink;
    if a == [] {
      assert a + b == b;
    } else {
      var h := LookIn(fs, vp, a[0], false);
      assert (a + b)[0] == a[0] && (a + b)[1..] == a[1..] + b;
      if !h.asIs && fs.vtype(h.v) == VLNK {
        var link := OrDot(fs.readlink(h.v).value);
        var at := if link[0] == '/' then fs.Root() else h.dir;
        RootInRange(fs);
        assert Pieces(link) + a[1..] + b == Pieces(link) + (a[1..] + b);
        m := PathsCompose(fs, at, Pieces(link) + a[1..], b, nlink + 1, ask);
      } else if |a| > 1 {
        m := PathsCompose(fs, h.v, a[1..], b, nlink, ask);
      } else {
        assert a[1..] + b == b;
      }
    }
  }

  /** A link on the way stands for what its text leads to, from the directory it is in or from the root:
      the rest of the path is resolved from there. */
  lemma LinkStandsForText(fs: FileSys, vp: nat, name: Path, rest: seq<Path>, nlink: nat, ask: Ask) returns (m: nat)
    requires fs.Valid() && vp < fs.size && nlink < MAXSYMLINKS && !ask.wantDir && rest != []
    requires fs.vtype(vp) == VDIR && |name| < MAXNAMELEN
    requires var h := LookIn(fs, vp, name, false);
      && h.Hit? && !h.asIs && fs.vtype(h.v) == VLNK && fs.readlink(h.v).Ok?
      && var text := OrDot(fs.readlink(h.v).value);
         ListWalk(fs, if text[0] == '/' then fs.Root() else h.dir, Pieces(text), nlink + 1, Ask(true, false)).Found?
    ensures var h := LookIn(fs, vp, name, false);
            var text := OrDot(fs.readlink(h.v).value);
            var o := ListWalk(fs, if text[0] == '/' then fs.Root() else h.dir, Pieces(text), nlink + 1, Ask(true, false));
            o.comp.Some? && o.comp.value < fs.size
            && GoesOn(fs, ListWalk(fs, vp, [name] + rest, nlink, ask), o.comp.value, rest, nlink + 1, ask, m)
  {
    hide LookIn, FileSys.Valid, Pieces;
    var h := LookIn(fs, vp, name, false);
    var text := OrDot(fs.readlink(h.v).value);
    assert ([name] + rest)[1..] == rest;
    RootInRange(fs);
    m := PathsCompose(fs, if text[0] == '/' then fs.Root() else h.dir, Pieces(text), rest, nlink + 1, ask);
  }

  /** A link at the end stands for its text too if it is to be followed, and is itself found if not. */
  lemma LastLink(fs: FileSys, vp: nat, name: Path, nlink: nat)
    requires fs.Valid() && vp < fs.size && nlink < MAXSYMLINKS && fs.vtype(vp) == VDIR && |name| < MAXNAMELEN
    requires var h := LookIn(fs, vp, name, false);
             h.Hit? && !h.asIs && fs.vtype(h.v) == VLNK && fs.readlink(h.v).Ok?
    ensures var h := LookIn(fs, vp, name, false);
            var text := OrDot(fs.readlink(h.v).value);
            && ListWalk(fs, vp, [name], nlink, Ask(false, false)) == Found(None, Some(h.v), name)
            && ListWalk(fs, vp, [name], nlink, Ask(true, false)) ==
               ListWalk(fs, if text[0] == '/' then fs.Root() else h.dir, Pieces(text), nlink + 1, Ask(true, false))
  {
    hide LookIn, FileSys.Valid, Pieces;
    var h := LookIn(fs, vp, name, false);
    var text := OrDot(fs.readlink(h.v).value);
    assert Pieces(text) + [name][1..] == Pieces(text);
  }

  /** A link that names itself cannot be followed, and the lookup does end. */
  lemma {:induction false} LoopFails(fs: FileSys, d: nat, name: Path, nlink: nat)
    requires fs.Valid() && d < fs.size && nlink <= MAXSYMLINKS && fs.vtype(d) == VDIR
    requires 0 < |name| < MAXNAMELEN && name != ".." && Clean(name) && '/' !in name
    requires fs.lookup(d, name, false).Ok? && Cross(fs, fs.lookup(d, name, false).value).Across?
    requires var v := Cross(fs, fs.lookup(d, name, false).value).v; fs.vtype(v) == VLNK && fs.readlink(v) == Ok(name)
    ensures Interpret(fs, d, name, nlink, Ask(true, false)) == Failed(ELOOP, Balanced)
    decreases MAXSYMLINKS - nlink
  {
    hide First, Rest, CString, FixSlash, LookIn;
    OneName(name);
    var v := Cross(fs, fs.lookup(d, name, false).value).v;
    assert LookIn(fs, d, name, false) == Hit(d, v, false) by { HitIs(fs, d, name); }
    assert Walk(fs, d, name, nlink, Ask(true, false)) == Followed(fs, d, v, [], nlink, Ask(true, false));
    if nlink < MAXSYMLINKS {
      LoopFails(fs, d, name, nlink + 1);
      assert OrDot(name) + [] == name;
    }
  }

  lemma HitIs(fs: FileSys, d: nat, name: Path)
    requires fs.Valid() && d < fs.size && name != ".." && fs.lookup(d, name, false).Ok?
    requires Cross(fs, fs.lookup(d, name, false).value).Across?
    ensures LookIn(fs, d, name, false) == Hit(d, Cross(fs, fs.lookup(d, name, false).value).v, false)
  {}

  lemma {:induction false} OneName(name: Path)
    requires name != [] && Clean(name) && '/' !in name
    ensures FixSlash(name) == name && First(name) == name && Rest(name) == [] && CString(name) == name
  {
    if |name| == 1 {
      LoneName(name[0]);
      assert name == [name[0]];
    } else {
      OneName(name[1..]);
      assert name[0] != '/' && name[|name| - 1] != '/';
    }
  }
}
