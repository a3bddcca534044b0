/** The meaning of a pathname: what lookuppn finds, without buffers or reference counts. */
module PathWalk {
  import opened Common
  import opened PathText

  const MAXSYMLINKS := 20
  const ENOENT := 2
  const EINTR := 4
  const ENOTDIR := 20
  const ENAMETOOLONG := 78
  const ELOOP := 90

  datatype Answer<T> = Ok(value: T) | Err(error: nat)
  datatype Vtype = VDIR | VLNK | Other

  /** The file systems as lookups see them: vnodes are 0..size. Directory contents, mounts and
      links are what the VOP and VFS calls answer. `depth` and `height` say that mounts nest:
      a mounted root lies deeper than the directory it covers, and mounts on top of one
      another come to an end. */
  datatype FileSys = FileSys(
    size: nat,
    rootdir: nat,
    rdir: Option<nat>,                        // u.u_rdir
    cdir: nat,                                // u.u_cdir
    vtype: nat -> Vtype,
    vroot: nat -> bool,                       // v_flag & VROOT
    covered: nat -> nat,                      // v_vfsp->vfs_vnodecovered
    lookup: (nat, Path, bool) -> Answer<nat>, // VOP_LOOKUP, with LOOKUP_DIR
    mounted: nat -> bool,                     // v_vfsmountedhere != NULL
    naps: nat -> nat,                         // how often the mount is found locked
    killed: (nat, nat) -> bool,               // whether a sleep on the lock is interrupted
    vfsRoot: nat -> Answer<nat>,              // VFS_ROOT of what is mounted here
    readlink: nat -> Answer<Path>,            // VOP_READLINK, at most MAXPATHLEN bytes
    depth: nat -> nat,
    height: nat -> nat)
  {
    function Root(): nat
    {
      if rdir.Some? then rdir.value else rootdir
    }

    predicate AtRoot(v: nat)
    {
      rdir == Some(v) || v == rootdir
    }

    ghost predicate Valid()
    {
      && cdir < size && rootdir < size && Root() < size
      && (forall v :: 0 <= v < size && vroot(v) && v != rootdir ==> covered(v) < size && depth(covered(v)) < depth(v))
      && (forall v: nat, n, d :: v < size && lookup(v, n, d).Ok? ==> lookup(v, n, d).value < size)
      && (forall v: nat, n, d :: lookup(v, n, d).Err? ==> lookup(v, n, d).error != 0)
      && (forall v: nat :: v < size && mounted(v) && vfsRoot(v).Ok? ==>
            vfsRoot(v).value < size && height(vfsRoot(v).value) < height(v))
      && (forall v: nat :: vfsRoot(v).Err? ==> vfsRoot(v).error != 0)
      && (forall v: nat :: readlink(v).Ok? ==> |readlink(v).value| <= MAXPATHLEN)
      && (forall v: nat :: readlink(v).Err? ==> readlink(v).error != 0)
    }
  }

  // ------------------------------------------------------------ mount points

  /** ".." from `v`: out of every mounted file system whose root this is, but not out of the
      process's root. */
  function Climb(fs: FileSys, v: nat): (r: nat)
    requires fs.Valid() && v < fs.size
    ensures r < fs.size && (fs.AtRoot(r) || !fs.vroot(r))
    decreases fs.depth(v)
  {
    if fs.AtRoot(v) || !fs.vroot(v) then v else Climb(fs, fs.covered(v))
  }

  /** Where crossing the mounts on `v` ends: on an unmounted vnode, or with an error on the
      way, `at` being the vnode reached. */
  datatype Crossing = Across(v: nat) | Stuck(error: nat, at: nat)

  /** Whether one of the sleeps on the mount's lock, from the i-th on, is interrupted. */
  predicate Interrupted(fs: FileSys, v: nat, i: nat)
    decreases fs.naps(v) - i
  {
    i < fs.naps(v) && (fs.killed(v, i) || Interrupted(fs, v, i + 1))
  }

  function Cross(fs: FileSys, v: nat): (c: Crossing)
    requires fs.Valid() && v < fs.size
    ensures c.Across? ==> c.v < fs.size && !fs.mounted(c.v)
    ensures c.Stuck? ==> c.at < fs.size && c.error != 0
    decreases fs.height(v)
  {
    if !fs.mounted(v) then Across(v)
    else if Interrupted(fs, v, 0) then Stuck(EINTR, v)
    else
      match fs.vfsRoot(v)
      case Err(e) => Stuck(e, v)
      case Ok(r) => Cross(fs, r)
  }

  // ------------------------------------------------------------ the walk

  /** A hold given back once too often, and one never given back. */
  datatype Stray = Balanced | Strayed(lost: nat, kept: nat)

  datatype Outcome =
    | Failed(error: nat, stray: Stray)
    | Found(dir: Option<nat>, comp: Option<nat>, name: Path)

  /** How the caller asked: whether links at the end are followed, whether the parent is wanted. */
  datatype Ask = Ask(follow: bool, wantDir: bool)

  /** What becomes of one name looked up in a directory: the directory it was really looked up
      in and the vnode found there across mounts; `asIs` when it is "..", taken at the root. */
  datatype Hit = Hit(dir: nat, v: nat, asIs: bool) | Miss(dir: nat, error: nat) | Jam(error: nat, stray: Stray)

  function LookIn(fs: FileSys, vp: nat, name: Path, wantDir: bool): (h: Hit)
    requires fs.Valid() && vp < fs.size
    ensures !h.Jam? ==> h.dir < fs.size
    ensures h.Hit? ==> h.v < fs.size
    ensures h.Miss? ==> h.error != 0
    ensures h.Jam? ==> h.error != 0
  {
    var d := if name == ".." then Climb(fs, vp) else vp;
    if name == ".." && fs.AtRoot(d) then Hit(d, d, true)
    else
      match fs.lookup(d, name, wantDir)
      case Err(e) => Miss(d, e)
      case Ok(c) =>
        match Cross(fs, c)
        case Across(v) => Hit(d, v, false)
        case Stuck(e, at) => Jam(e, if at == c then Balanced else Strayed(c, at))
  }

  function OrDot(link: Path): Path
  {
    if link == [] then "." else link
  }

  /** The name interpretation of lookuppn from `begin`, on the path `s` from directory `vp`. */
  function Interpret(fs: FileSys, vp: nat, s: Path, nlink: nat, ask: Ask): (o: Outcome)
    requires fs.Valid() && vp < fs.size && nlink <= MAXSYMLINKS
    ensures Sound(fs, o, ask)
    decreases MAXSYMLINKS - nlink, |s| + 1
  {
    if s == [] then Failed(ENOENT, Balanced)
    else if s[0] == '/' then Walk(fs, fs.Root(), FixSlash(SkipSlash(s)), nlink, ask)
    else Walk(fs, vp, FixSlash(s), nlink, ask)
  }

  ghost predicate Sound(fs: FileSys, o: Outcome, ask: Ask)
  {
    match o
    case Failed(e, _) => e != 0
    case Found(d, c, _) =>
      && (d.Some? <==> ask.wantDir) && (d.Some? ==> d.value < fs.size)
      && (c.None? ==> ask.wantDir) && (c.Some? ==> c.value < fs.size)
  }

  /** The name interpretation from `next`. */
  function Walk(fs: FileSys, vp: nat, s: Path, nlink: nat, ask: Ask): (o: Outcome)
    requires fs.Valid() && vp < fs.size && nlink <= MAXSYMLINKS
    ensures Sound(fs, o, ask)
    decreases MAXSYMLINKS - nlink, |s|, 0
  {
    if fs.vtype(vp) != VDIR then Failed(ENOTDIR, Balanced)
    else if |First(s)| >= MAXNAMELEN then Failed(ENAMETOOLONG, Balanced)
    else if CString(First(s)) == [] then
      if ask.wantDir then Failed(EINVAL, Balanced) else Found(None, Some(vp), ".")
    else
      match LookIn(fs, vp, CString(First(s)), ask.wantDir)
      case Jam(e, stray) => Failed(e, stray)
      case Miss(d, e) =>
        if Rest(s) != [] || !ask.wantDir || e != ENOENT then Failed(e, Balanced)
        else Found(Some(d), None, First(s))
      case Hit(d, v, asIs) =>
        Proceed(fs, d, v, asIs, First(s), Rest(s), nlink, ask)
  }

  /** With the vnode `v` found as `name` in directory `d`, and `rest` still to go. */
  function Proceed(fs: FileSys, d: nat, v: nat, asIs: bool, name: Path, rest: Path, nlink: nat, ask: Ask): (o: Outcome)
    requires fs.Valid() && d < fs.size && v < fs.size && nlink <= MAXSYMLINKS
    ensures Sound(fs, o, ask)
    decreases MAXSYMLINKS - nlink, |rest|, 1
  {
    if !asIs && fs.vtype(v) == VLNK && (ask.follow || rest != []) then Followed(fs, d, v, rest, nlink, ask)
    else if rest == [] then
      if !ask.wantDir then Found(None, Some(v), name)
      else if d == v then Failed(EINVAL, Balanced)
      else Found(Some(d), Some(v), name)
    else Walk(fs, v, SkipSlash(rest), nlink, ask)
  }

  /** The link `v`, found in directory `d`, is put in front of the remaining path. */
  function Followed(fs: FileSys, d: nat, v: nat, rest: Path, nlink: nat, ask: Ask): (o: Outcome)
    requires fs.Valid() && d < fs.size && v < fs.size && nlink <= MAXSYMLINKS
    ensures Sound(fs, o, ask)
    decreases MAXSYMLINKS - nlink, 0, 0
  {
    if nlink == MAXSYMLINKS then Failed(ELOOP, Balanced)
    else
      match fs.readlink(v)
      case Err(e) => Failed(e, Balanced)
      case Ok(link) =>
        if |rest| + |OrDot(link)| >= MAXPATHLEN then Failed(ENAMETOOLONG, Balanced)
        else Interpret(fs, d, OrDot(link) + rest, nlink + 1, ask)
  }
}

/** fs/lookup.c over counted vnodes and a shared pool of pathname buffers. */
module Lookup {
  import opened Common
  import opened PathText
  import opened PathWalk
  import opened Pathname

  // ------------------------------------------------------------ reference counts

  type Counts = seq<int>

  function Hold(c: Counts, v: nat): (r: Counts)
    requires v < |c|
    ensures |r| == |c|
  {
    c[v := c[v] + 1]
  }

  function Rele(c: Counts, v: nat): (r: Counts)
    requires v < |c|
    ensures |r| == |c|
  {
    c[v := c[v] - 1]
  }

  /** The hold on `a` exchanged for one on `b`. */
  function Moved(c: Counts, a: nat, b: nat): (r: Counts)
    requires a < |c| && b < |c|
    ensures |r| == |c|
  {
    Hold(Rele(c, a), b)
  }

  function HoldAll(c: Counts, v: Option<nat>): (r: Counts)
    requires v.Some? ==> v.value < |c|
    ensures |r| == |c|
  {
    if v.Some? then Hold(c, v.value) else c
  }

  function WithStray(c: Counts, s: Stray): (r: Counts)
    requires s.Strayed? ==> s.lost < |c| && s.kept < |c|
    ensures |r| == |c|
  {
    if s.Strayed? then Moved(c, s.lost, s.kept) else c
  }

  lemma HoldRele(c: Counts, v: nat)
    requires v < |c|
    ensures Rele(Hold(c, v), v) == c && Hold(Rele(c, v), v) == c && Moved(c, v, v) == c
  {}

  lemma HoldOrder(c: Counts, a: nat, b: nat)
    requires a < |c| && b < |c|
    ensures Hold(Hold(c, a), b) == Hold(Hold(c, b), a)
    ensures Rele(Hold(c, a), b) == Hold(Rele(c, b), a)
    ensures Rele(Rele(c, a), b) == Rele(Rele(c, b), a)
  {}

  lemma MovedOn(c: Counts, a: nat, b: nat, d: nat)
    requires a < |c| && b < |c| && d < |c|
    ensures Moved(Moved(c, a, b), b, d) == Moved(c, a, d)
    ensures Moved(Hold(c, a), a, b) == Hold(c, b)
  {}

  /** What lookuppn hands back, and the counts it leaves, for an outcome. A vnode handed back
      brings one hold; nothing else does. */
  ghost predicate Returned(o: Outcome, wantComp: bool, before: Counts,
                           error: nat, dir: Option<nat>, comp: Option<nat>, after: Counts)
  {
    match o
    case Failed(e, stray) =>
      && error == e && dir == None && comp == None
      && (stray.Strayed? ==> stray.lost < |before| && stray.kept < |before|)
      && after == WithStray(before, stray)
    case Found(d, c, _) =>
      && error == 0 && dir == d && comp == (if wantComp then c else None)
      && (d.Some? ==> d.value < |before|) && (c.Some? ==> c.value < |before|)
      && after == HoldAll(HoldAll(before, dir), comp)
  }

  /** Where lookuppn goes next: out, back to `begin` after a link, or on to the next component. */
  datatype Go = Finished | Relink | Onward

  class Names {
    const fs: FileSys
    var count: Counts   // v_count of each vnode
    var pnbufs: nat     // pathname buffers allocated
    var pnfree: nat     // of which on pn_freelist

    ghost predicate Valid()
      reads this
    {
      fs.Valid() && |count| == fs.size && pnfree <= pnbufs
    }

    /** Buffers allocated to some caller. */
    function InUse(): int
      reads this
    {
      pnbufs - pnfree
    }

    method VnHold(v: nat)
      requires Valid() && v < fs.size
      modifies this`count
      ensures Valid() && count == Hold(old(count), v)
    {
      count := count[v := count[v] + 1];
    }

    method VnRele(v: nat)
      requires Valid() && v < fs.size
      modifies this`count
      ensures Valid() && count == Rele(old(count), v)
    {
      count := count[v := count[v] - 1];
    }

    method PnAlloc() returns (pn: Pn)
      requires Valid()
      modifies this`pnbufs, this`pnfree
      ensures Valid() && InUse() == old(InUse()) + 1
      ensures fresh(pn) && fresh(pn.buf) && pn.Terminable() && pn.path == 0 && pn.pathlen == 0
    {
      if pnfree > 0 {
        pnfree := pnfree - 1;
      } else {
        pnbufs := pnbufs + 1;
      }
      pn := new Pn();
    }

    method PnFree()
      requires Valid() && InUse() > 0
      modifies this`pnfree
      ensures Valid() && InUse() == old(InUse()) - 1
    {
      pnfree := pnfree + 1;
    }

    /** traverse, with a hold on `v`. The vnode pointed to is not updated when the sleep on the
        lock is interrupted, and its caller does not look at it on error anyway. */
    method Traverse(v: nat) returns (error: nat, r: nat)
      requires Valid() && v < fs.size
      modifies this`count
      ensures Valid()
      ensures match Cross(fs, v)
              case Across(w) => error == 0 && r == w && count == Moved(old(count), v, w)
              case Stuck(e, at) => error == e && count == Moved(old(count), v, at)
    {
      var cvp: nat := v;
      HoldRele(count, v);
      while fs.mounted(cvp)
        invariant Valid() && cvp < fs.size && Cross(fs, cvp) == Cross(fs, v)
        invariant count == Moved(old(count), v, cvp)
        decreases fs.height(cvp)
      {
        var i := 0;
        while i < fs.naps(cvp)
          invariant i <= fs.naps(cvp) && Interrupted(fs, cvp, 0) == Interrupted(fs, cvp, i)
          invariant Valid() && count == Moved(old(count), v, cvp)
        {
          if fs.killed(cvp, i) {
            return EINTR, v;
          }
          i := i + 1;
        }
        match fs.vfsRoot(cvp) {
          case Err(e) =>
            return e, cvp;
          case Ok(tvp) =>
            MovedOn(old(count), v, cvp, tvp);
            HoldOrder(count, tvp, cvp);
            VnHold(tvp);
            VnRele(cvp);
            cvp := tvp;
        }
      }
      return 0, cvp;
    }

    /** The search for the directory ".." is to be looked up in. */
    method CheckForRoot(v: nat) returns (vp: nat)
      requires Valid() && v < fs.size
      modifies this`count
      ensures Valid() && vp == Climb(fs, v) && count == Moved(old(count), v, vp)
    {
      vp := v;
      HoldRele(count, v);
      while !fs.AtRoot(vp) && fs.vroot(vp)
        invariant Valid() && vp < fs.size && Climb(fs, vp) == Climb(fs, v)
        invariant count == Moved(old(count), v, vp)
        decreases fs.depth(vp)
      {
        var cvp := vp;
        vp := fs.covered(vp);
        MovedOn(old(count), v, cvp, vp);
        HoldOrder(count, vp, cvp);
        VnHold(vp);
        VnRele(cvp);
      }
    }

    /** One component: ".." at the root or across mounts, VOP_LOOKUP, and mounts crossed.
        `missed` is VOP_LOOKUP's own error, for which no component vnode is held. */
    method Component(v: nat, name: Path, wantDir: bool)
      returns (error: nat, missed: bool, vp: nat, cvp: nat, asIs: bool)
      requires Valid() && v < fs.size
      modifies this`count
      ensures Valid() && vp < fs.size && cvp < fs.size
      ensures match LookIn(fs, v, name, wantDir)
              case Hit(d, c, root) =>
                error == 0 && vp == d && cvp == c && asIs == root && count == Hold(Moved(old(count), v, d), c)
              case Miss(d, e) =>
                error == e && missed && vp == d && count == Moved(old(count), v, d)
              case Jam(e, stray) =>
                && error == e && !missed
                && (stray.Strayed? ==> stray.lost < fs.size && stray.kept < fs.size)
                && Rele(Rele(count, cvp), vp) == WithStray(Rele(old(count), v), stray)
    {
      vp, cvp, asIs, missed, error := v, v, false, false, 0;
      HoldRele(count, v);
      if name == ".." {
        vp := CheckForRoot(v);
        if fs.AtRoot(vp) {
          cvp := vp;
          VnHold(cvp);
          asIs := true;
          return;
        }
      }
      ghost var c0 := count;
      match fs.lookup(vp, name, wantDir) {
        case Err(e) =>
          error, missed := e, true;
          return;
        case Ok(tvp) =>
          count := Hold(count, tvp); // VOP_LOOKUP returns it held
          cvp := tvp;
      }
      if fs.mounted(cvp) {
        var r;
        ghost var cross := Cross(fs, cvp);
        error, r := Traverse(cvp);
        if error == 0 {
          MovedOn(c0, cvp, cross.v, cross.v);
          cvp := r;
        } else {
          MovedOn(c0, cvp, cross.at, cross.at);
          JamCount(old(count), c0, v, vp, cvp, cross.at);
        }
      }
    }

    /** A symbolic link's text put in front of what remains of the path. */
    method Splice(cvp: nat, pn: Pn) returns (error: nat)
      requires Valid() && cvp < fs.size && pn.Terminable() && pn.pathlen >= 0
      modifies this`pnbufs, this`pnfree, pn, pn.buf
      ensures Valid() && InUse() == old(InUse())
      ensures pn.Valid()
      ensures match fs.readlink(cvp)
              case Err(e) => error == e
              case Ok(link) =>
                if |old(pn.Text())| + |OrDot(link)| >= MAXPATHLEN then error == ENAMETOOLONG
                else error == 0 && pn.Terminable() && pn.path == 0 && pn.pathlen >= 0 && pn.Text() == OrDot(link) + old(pn.Text())
    {
      hide FileSys.Valid, Pn.Text, CString;
      TextBounds(pn);
      var linkpath := PnAlloc();
      match fs.readlink(cvp) {
        case Err(e) =>
          PnFree();
          return e;
        case Ok(link) =>
          LinkFits(fs, cvp);
          linkpath.Fill(link);
          if linkpath.pathlen == 0 {
            DotIsDot();
            TextBounds(linkpath);
            var fits := linkpath.Set(".");
          }
          TextBounds(linkpath);
          var ok := pn.Insert(linkpath);
          PnFree();
          return if ok then 0 else ENAMETOOLONG;
      }
    }

    /** The end of lookuppn: parent and component vnodes go to whoever wants them. */
    method Deliver(vp: nat, cvp: nat, wantDir: bool, wantComp: bool, ghost c0: Counts, ghost o: Outcome)
      returns (error: nat, dir: Option<nat>, comp: Option<nat>)
      requires Valid() && vp < fs.size && cvp < fs.size && |c0| == fs.size && count == Hold(Hold(c0, vp), cvp)
      requires if wantDir && vp == cvp then o == Failed(EINVAL, Balanced)
               else o.Found? && o.dir == (if wantDir then Some(vp) else None) && o.comp == Some(cvp)
      modifies this`count
      ensures Valid() && Returned(o, wantComp, c0, error, dir, comp, count)
    {
      hide FileSys.Valid;
      error, dir, comp := 0, None, None;
      HoldOrder(c0, vp, cvp);
      HoldRele(Hold(c0, cvp), vp);
      HoldRele(Hold(c0, vp), cvp);
      HoldRele(c0, vp);
      HoldRele(c0, cvp);
      if wantDir {
        if vp == cvp {
          VnRele(vp);
          VnRele(cvp);
          error := EINVAL;
          return;
        }
        dir := Some(vp);
      } else {
        VnRele(vp);
      }
      if wantComp {
        comp := Some(cvp);
      } else {
        VnRele(cvp);
      }
    }

    /** A name with nothing in it stands for the directory itself. */
    method Degenerate(pn: Pn, vp: nat, wantDir: bool, wantComp: bool, ghost c0: Counts, ghost o: Outcome)
      returns (error: nat, comp: Option<nat>)
      requires Valid() && vp < fs.size && |c0| == fs.size && count == Hold(c0, vp) && pn.Terminable()
      requires o == if wantDir then Failed(EINVAL, Balanced) else Found(None, Some(vp), ".")
      modifies this`count, pn, pn.buf
      ensures Valid() && Returned(o, wantComp, c0, error, None, comp, count) && pn.Valid() && (o.Found? ==> pn.Text() == o.name)
    {
      hide FileSys.Valid, Pn.Text;
      comp := None;
      HoldRele(c0, vp);
      if wantDir {
        VnRele(vp);
        return EINVAL, None;
      }
      DotIsDot();
      var fits := pn.Set(".");
      if wantComp {
        comp := Some(vp);
      } else {
        VnRele(vp);
      }
      return 0, comp;
    }

    /** VOP_LOOKUP or traverse has failed. */
    method Failure(pn: Pn, vp: nat, cvp: nat, e: nat, missed: bool, ask: Ask, wantComp: bool, component: Path,
                   ghost c0: Counts, ghost o: Outcome, ghost h: Hit)
      returns (error: nat, dir: Option<nat>)
      requires Valid() && vp < fs.size && cvp < fs.size && |c0| == fs.size && e != 0
      requires pn.Terminable() && pn.pathlen >= 0 && Name(component)
      requires pn.path >= |component| && pn.buf[pn.path - |component|..pn.path] == component
      requires pn.path > |component| ==> pn.buf[pn.path - |component| - 1] == '/'
      requires match h
               case Hit(_, _, _) => false
               case Miss(d, e') =>
                 && missed && vp == d && e == e' && count == Hold(c0, vp)
                 && o == if pn.pathlen != 0 || !ask.wantDir || e != ENOENT then Failed(e, Balanced)
                         else Found(Some(d), None, component)
               case Jam(e', stray) =>
                 && !missed && e == e' && o == Failed(e, stray) && (stray.Strayed? ==> stray.lost < fs.size && stray.kept < fs.size)
                 && Rele(Rele(count, cvp), vp) == WithStray(c0, stray)
      modifies this`count, pn, pn.buf
      ensures Valid() && Returned(o, wantComp, c0, error, dir, None, count) && pn.Valid() && (o.Found? ==> pn.Text() == o.name)
    {
      hide FileSys.Valid, Pn.Text, WithStray, Final;
      if !missed {
        VnRele(cvp);
        VnRele(vp);
        return e, None;
      }
      if pn.pathlen != 0 || !ask.wantDir || e != ENOENT {
        HoldRele(c0, vp);
        VnRele(vp);
        Fails(o, e, wantComp, c0);
        return e, None;
      }
      FinalStripped(pn.buf[..], pn.path - |component|, component);
      pn.SetLast();
      return 0, Some(vp);
    }

    /** A symbolic link to be followed. */
    method Link(pn: Pn, vp: nat, cvp: nat, nlink: nat, ask: Ask, wantComp: bool, ghost c0: Counts, ghost o: Outcome)
      returns (error: nat)
      requires Valid() && vp < fs.size && cvp < fs.size && |c0| == fs.size && nlink <= MAXSYMLINKS
      requires count == Hold(Hold(c0, vp), cvp) && pn.Terminable() && pn.pathlen >= 0
      requires o == Followed(fs, vp, cvp, pn.Text(), nlink, ask)
      modifies this`count, this`pnbufs, this`pnfree, pn, pn.buf
      ensures Valid() && InUse() == old(InUse()) && pn.Valid()
      ensures error != 0 ==> Returned(o, wantComp, c0, error, None, None, count) && o.Failed?
      ensures error == 0 ==> nlink < MAXSYMLINKS && count == Hold(c0, vp) && pn.Terminable() && pn.path == 0 && pn.pathlen >= 0
                             && o == Interpret(fs, vp, pn.Text(), nlink + 1, ask)
    {
      hide Interpret, OrDot, Pn.Text, Hold, Rele;
      HoldRele(Hold(c0, vp), cvp);
      HoldRele(c0, vp);
      if nlink + 1 > MAXSYMLINKS {
        VnRele(cvp);
        VnRele(vp);
        return ELOOP;
      }
      error := Splice(cvp, pn);
      VnRele(cvp);
      if error != 0 {
        VnRele(vp);
      }
    }

    /** lookuppn from `next`: through the components, to an end or to a link to be followed
        (then interpretation begins again). */
    method Components(pn: Pn, start: nat, nlink: nat, ask: Ask, wantComp: bool, ghost c0: Counts, ghost o: Outcome)
      returns (done: bool, vp: nat, error: nat, dir: Option<nat>, comp: Option<nat>)
      requires Valid() && pn.Terminable() && pn.AtName() && start < fs.size && nlink <= MAXSYMLINKS
      requires |c0| == fs.size && count == Hold(c0, start)
      requires o == Walk(fs, start, pn.Text(), nlink, ask)
      modifies this`count, this`pnbufs, this`pnfree, pn, pn.buf
      ensures Valid() && InUse() == old(InUse()) && pn.Valid()
      ensures done ==> Returned(o, wantComp, c0, error, dir, comp, count) && (o.Found? ==> pn.Text() == o.name)
      ensures !done ==> nlink < MAXSYMLINKS && vp < fs.size && count == Hold(c0, vp)
      ensures !done ==> pn.Terminable() && pn.path == 0 && pn.pathlen >= 0
                        && o == Interpret(fs, vp, pn.Text(), nlink + 1, ask)
    {
      hide Interpret, Walk, Returned, Hold, FileSys.Valid, Pn.Text, Pn.AtName;
      vp, error, dir, comp := start, 0, None, None;
      var go := Onward;
      while go == Onward // next
        invariant Valid() && InUse() == old(InUse()) && pn.Valid() && vp < fs.size
        invariant go != Finished ==> pn.Terminable() && count == Hold(c0, vp)
        invariant go == Onward ==> pn.AtName() && o == Walk(fs, vp, pn.Text(), nlink, ask)
        invariant go == Finished ==> Returned(o, wantComp, c0, error, dir, comp, count) && (o.Found? ==> pn.Text() == o.name)
        invariant go == Relink ==> nlink < MAXSYMLINKS && pn.path == 0 && pn.pathlen >= 0
        invariant go == Relink ==> o == Interpret(fs, vp, pn.Text(), nlink + 1, ask)
        decreases go == Onward, |pn.Text()|
      {
        go, vp, error, dir, comp := Next(pn, vp, nlink, ask, wantComp, c0, o);
      }
      done := go == Finished;
    }

    /** With the component's vnode in hand: a link to follow, the end, or one directory on. */
    method Advance(pn: Pn, d: nat, cvp: nat, asIs: bool, nlink: nat, ask: Ask, wantComp: bool, component: Path,
               ghost c0: Counts, ghost o: Outcome)
      returns (go: Go, vp: nat, error: nat, dir: Option<nat>, comp: Option<nat>)
      requires Valid() && d < fs.size && cvp < fs.size && nlink <= MAXSYMLINKS && |c0| == fs.size
      requires count == Hold(Hold(c0, d), cvp) && pn.Terminable() && pn.pathlen >= 0 && Name(component)
      requires pn.path >= |component| && pn.buf[pn.path - |component|..pn.path] == component
      requires pn.path > |component| ==> pn.buf[pn.path - |component| - 1] == '/'
      requires pn.pathlen > 0 ==> pn.buf[pn.path] == '/'
      requires o == Proceed(fs, d, cvp, asIs, component, pn.Text(), nlink, ask)
      modifies this`count, this`pnbufs, this`pnfree, pn, pn.buf
      ensures Valid() && InUse() == old(InUse()) && pn.Valid() && vp < fs.size
      ensures go != Finished ==> pn.Terminable() && count == Hold(c0, vp)
      ensures go == Onward ==> pn.AtName() && o == Walk(fs, vp, pn.Text(), nlink, ask) && |pn.Text()| <= |old(pn.Text())|
      ensures go == Finished ==> Returned(o, wantComp, c0, error, dir, comp, count) && (o.Found? ==> pn.Text() == o.name)
      ensures go == Relink ==> nlink < MAXSYMLINKS && pn.path == 0 && pn.pathlen >= 0
      ensures go == Relink ==> o == Interpret(fs, vp, pn.Text(), nlink + 1, ask)
    {
      hide Interpret, Followed, Walk, SkipSlash, Hold, Returned, FileSys.Valid, Pn.Text, Final;
      vp, go, error, dir, comp := d, Finished, 0, None, None;
      TextBounds(pn);
      if !asIs && fs.vtype(cvp) == VLNK && (ask.follow || pn.pathlen != 0) {
        error := Link(pn, vp, cvp, nlink, ask, wantComp, c0, o);
        go := if error == 0 then Relink else Finished;
        return;
      }
      if pn.pathlen == 0 {
        LastStripped(pn, component);
        pn.SetLast();
        error, dir, comp := Deliver(vp, cvp, ask.wantDir, wantComp, c0, o);
        return;
      }
      pn.SkipSlash();
      DropParent(c0, vp, cvp);
      VnRele(vp);
      vp, go := cvp, Onward;
    }

    /** One component of the path. */
    method Next(pn: Pn, start: nat, nlink: nat, ask: Ask, wantComp: bool, ghost c0: Counts, ghost o: Outcome)
      returns (go: Go, vp: nat, error: nat, dir: Option<nat>, comp: Option<nat>)
      requires Valid() && pn.Terminable() && pn.AtName() && start < fs.size && nlink <= MAXSYMLINKS
      requires |c0| == fs.size && count == Hold(c0, start)
      requires o == Walk(fs, start, pn.Text(), nlink, ask)
      modifies this`count, this`pnbufs, this`pnfree, pn, pn.buf
      ensures Valid() && InUse() == old(InUse()) && pn.Valid() && vp < fs.size
      ensures go != Finished ==> pn.Terminable() && count == Hold(c0, vp)
      ensures go == Onward ==> pn.AtName() && o == Walk(fs, vp, pn.Text(), nlink, ask) && |pn.Text()| < |old(pn.Text())|
      ensures go == Finished ==> Returned(o, wantComp, c0, error, dir, comp, count) && (o.Found? ==> pn.Text() == o.name)
      ensures go == Relink ==> nlink < MAXSYMLINKS && pn.path == 0 && pn.pathlen >= 0
                               && o == Interpret(fs, vp, pn.Text(), nlink + 1, ask)
    {
      hide Interpret, LookIn, Proceed, CString, FirstLen, Hold, Returned, FileSys.Valid, Pn.Text;
      vp, go, error, dir, comp := start, Finished, 0, None, None;
      Undone(c0, vp);
      if fs.vtype(vp) != VDIR {
        VnRele(vp);
        error := ENOTDIR;
        Fails(o, error, wantComp, c0);
        return;
      }
      ghost var s := pn.Text();
      TextBounds(pn);
      var ok, component := pn.StripComponent();
      if !ok {
        VnRele(vp);
        error := ENAMETOOLONG;
        Fails(o, error, wantComp, c0);
        return;
      }
      var name := CString(component);
      if name == [] {
        error, comp := Degenerate(pn, vp, ask.wantDir, wantComp, c0, o);
        return;
      }
      NameNotEmpty(component);
      TextBounds(pn);
      var missed, cvp, asIs;
      error, missed, vp, cvp, asIs := Component(vp, name, ask.wantDir);
      AfterComponent(c0, start, vp);
      if error != 0 {
        error, dir := Failure(pn, vp, cvp, error, missed, ask, wantComp, component, c0, o, LookIn(fs, start, name, ask.wantDir));
        return;
      }
      go, vp, error, dir, comp := Advance(pn, vp, cvp, asIs, nlink, ask, wantComp, component, c0, o);
    }

    /** lookuppn. `count` and the answers are as the meaning of the path says, on every exit;
        on success what is left in `pn` is the name of the last component. */
    method LookupPn(pn: Pn, ask: Ask, wantComp: bool) returns (error: nat, dir: Option<nat>, comp: Option<nat>)
      requires Valid() && pn.Terminable() && pn.path == 0 && pn.pathlen >= 0
      modifies this`count, this`pnbufs, this`pnfree, pn, pn.buf
      ensures Valid() && InUse() == old(InUse()) && pn.Valid()
      ensures var o := Interpret(fs, fs.cdir, old(pn.Text()), 0, ask);
              && Returned(o, wantComp, old(count), error, dir, comp, count)
              && (o.Found? ==> pn.Text() == o.name)
    {
      hide Interpret, Walk, FixSlash, SkipSlash, FileSys.Valid, Pn.Text, Hold, Rele, Returned;
      Starts(fs);
      ghost var c0, o := count, Interpret(fs, fs.cdir, pn.Text(), 0, ask);
      var nlink: nat, vp: nat := 0, fs.cdir;
      VnHold(vp);
      while true // begin
        invariant Valid() && InUse() == old(InUse()) && vp < fs.size && nlink <= MAXSYMLINKS
        invariant pn.Terminable() && pn.path == 0 && pn.pathlen >= 0
        invariant |c0| == fs.size && count == Hold(c0, vp)
        invariant o == Interpret(fs, vp, pn.Text(), nlink, ask)
        decreases MAXSYMLINKS - nlink
      {
        InterpretStep(fs, vp, pn.Text(), nlink, ask);
        TextBounds(pn);
        if pn.pathlen == 0 {
          HoldRele(c0, vp);
          VnRele(vp);
          Fails(o, ENOENT, wantComp, c0);
          return ENOENT, None, None;
        }
        if pn.buf[pn.path] == '/' {
          HoldRele(c0, vp);
          VnRele(vp);
          pn.SkipSlash();
          vp := fs.Root();
          VnHold(vp);
        }
        pn.FixSlash();
        var done;
        done, vp, error, dir, comp := Components(pn, vp, nlink, ask, wantComp, c0, o);
        if done {
          return;
        }
        nlink := nlink + 1;
      }
    }
  }

  lemma JamCount(before: Counts, c0: Counts, v: nat, vp: nat, c: nat, at: nat)
    requires |before| == |c0| && v < |c0| && vp < |c0| && c < |c0| && at < |c0|
    requires c0 == Moved(before, v, vp)
    ensures Rele(Rele(Hold(c0, at), c), vp) == WithStray(Rele(before, v), if at == c then Balanced else Strayed(c, at))
  {}

  lemma InterpretStep(fs: FileSys, vp: nat, s: Path, nlink: nat, ask: Ask)
    requires fs.Valid() && vp < fs.size && nlink <= MAXSYMLINKS
    ensures Interpret(fs, vp, s, nlink, ask) ==
            if s == [] then Failed(ENOENT, Balanced)
            else if s[0] == '/' then Walk(fs, fs.Root(), FixSlash(SkipSlash(s)), nlink, ask)
            else Walk(fs, vp, FixSlash(s), nlink, ask)
  {}

  lemma DotIsDot()
    ensures CString(".") == "."
  {}

  lemma Undone(c: Counts, v: nat)
    requires v < |c|
    ensures Rele(Hold(c, v), v) == c
  {}

  lemma Fails(o: Outcome, e: nat, wantComp: bool, c: Counts)
    requires o == Failed(e, Balanced)
    ensures Returned(o, wantComp, c, e, None, None, c)
  {}

  lemma NameNotEmpty(s: Path)
    requires '/' !in s && CString(s) != []
    ensures Name(s)
  {}

  lemma AfterComponent(c: Counts, v: nat, d: nat)
    requires v < |c| && d < |c|
    ensures Moved(Hold(c, v), v, d) == Hold(c, d) && Rele(Hold(c, v), v) == c
  {}

  lemma DropParent(c: Counts, d: nat, v: nat)
    requires d < |c| && v < |c|
    ensures Rele(Hold(Hold(c, d), v), d) == Hold(c, v)
  {}

  lemma LastStripped(pn: Pn, component: Path)
    requires pn.Terminable() && pn.pathlen == 0 && Name(component)
    requires pn.path >= |component| && pn.buf[pn.path - |component|..pn.path] == component
    requires pn.path > |component| ==> pn.buf[pn.path - |component| - 1] == '/'
    ensures Final(pn.buf[..pn.path]) == component
  {
    FinalStripped(pn.buf[..], pn.path - |component|, component);
    assert pn.buf[..][..pn.path] == pn.buf[..pn.path];
  }

  lemma Starts(fs: FileSys)
    requires fs.Valid()
    ensures fs.cdir < fs.size && fs.Root() < fs.size
  {}

  lemma LinkFits(fs: FileSys, v: nat)
    requires fs.Valid() && fs.readlink(v).Ok?
    ensures |fs.readlink(v).value| <= MAXPATHLEN
  {}
}
