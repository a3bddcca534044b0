/** The routines of fs/vnode.c that look names up, as clients of lookuppn: what they answer
    and that the holds they are given are all given back. */
module VnodeSpec {
  import opened Common
  import opened PathText
  import opened PathWalk

  const EAGAIN := 11
  const EBUSY := 16
  const EEXIST := 17
  const EXDEV := 18
  const EISDIR := 21
  const EROFS := 30

  datatype Why = CRCREAT | CRMKNOD | CRMKDIR

  /** What the file system operations answer. An operation that names a new vnode returns it
      held; VOP_OPEN may put another vnode in place of the one opened, hold and all. */
  datatype Ops = Ops(
    vfsp: nat -> nat,                         // v_vfsp
    rdonly: nat -> bool,                      // VFS_RDONLY of that file system
    unlinkable: nat -> bool,                  // VFS_UNLINKABLE
    fsid: nat -> Answer<nat>,                 // VOP_GETATTR, va_fsid
    locked: nat -> bool,                      // v_filocks != NULL
    mandlock: nat -> Answer<bool>,            // VOP_GETATTR, MANDLOCK
    access: nat -> nat,                       // VOP_ACCESS
    create: (nat, Path) -> Answer<nat>,
    mkdir: (nat, Path) -> Answer<nat>,
    open: nat -> Answer<nat>,
    truncate: nat -> nat,                     // VOP_SETATTR, va_size 0
    link: (nat, nat, Path) -> nat,
    rename: (nat, Path, nat, Path) -> nat,
    unmount: nat -> nat,                      // dounmount of the file system with this root
    rmdir: (nat, Path) -> nat,
    remove: (nat, Path) -> nat)
  {
    ghost predicate Valid(fs: FileSys)
    {
      && (forall v: nat :: v < fs.size && fs.vroot(v) && unlinkable(v) ==> fs.covered(v) < fs.size)
      && (forall v: nat, n :: v < fs.size && create(v, n).Ok? ==> create(v, n).value < fs.size)
      && (forall v: nat, n :: v < fs.size && mkdir(v, n).Ok? ==> mkdir(v, n).value < fs.size)
      && (forall v: nat :: v < fs.size && open(v).Ok? ==> open(v).value < fs.size)
      && (forall v: nat, n :: create(v, n).Err? ==> create(v, n).error != 0)
      && (forall v: nat, n :: mkdir(v, n).Err? ==> mkdir(v, n).error != 0)
      && (forall v: nat :: open(v).Err? ==> open(v).error != 0)
      && (forall v: nat :: fsid(v).Err? ==> fsid(v).error != 0)
      && (forall v: nat :: mandlock(v).Err? ==> mandlock(v).error != 0)
    }
  }

  /** pn_get of a string in user or system space. */
  function UserPath(str: Answer<Path>): (r: Answer<Path>)
    ensures r.Ok? ==> |r.value| < MAXPATHLEN
  {
    match str
    case Err(e) => Err(e)
    case Ok(s) => if |CString(s)| >= MAXPATHLEN then Err(ENAMETOOLONG) else Ok(CString(s))
  }

  predicate Faults(str: Answer<Path>) { str.Err? ==> str.error != 0 }

  function Named(fs: FileSys, str: Answer<Path>, ask: Ask): (o: Outcome)
    requires fs.Valid() && Faults(str)
    ensures Sound(fs, o, ask)
  {
    match UserPath(str)
    case Err(e) => Failed(e, Balanced)
    case Ok(s) => Interpret(fs, fs.cdir, s, 0, ask)
  }

  /** An answer, and what a failed lookup did to the holds. */
  datatype Reply<T> = Reply(answer: Answer<T>, stray: Stray)

  function CreateReply(fs: FileSys, ops: Ops, str: Answer<Path>, excl: bool, why: Why): Reply<nat>
    requires fs.Valid() && Faults(str)
  {
    if UserPath(str).Err? then Reply(Err(UserPath(str).error), Balanced)
    else
      match Named(fs, str, Ask(!excl, true))
      case Failed(e, stray) => Reply(Err(if why == CRMKDIR && e == EINVAL then EEXIST else e), stray)
      case Found(dir, comp, name) =>
        var d := dir.value;
        var seen := if excl then None else comp;
        if ops.rdonly(d) then Reply(Err(EROFS), Balanced)
        else if seen.Some? && ops.locked(seen.value) && ops.mandlock(seen.value) != Ok(false) then
          Reply(Err(if ops.mandlock(seen.value).Err? then ops.mandlock(seen.value).error else EAGAIN), Balanced)
        else if seen.Some? && fs.vroot(seen.value) then Reply(ops.create(seen.value, []), Balanced)
        else if why == CRMKDIR then Reply(ops.mkdir(d, name), Balanced)
        else Reply(ops.create(d, name), Balanced)
  }

  function OpenReply(fs: FileSys, ops: Ops, str: Answer<Path>, write: bool, creat: bool, excl: bool, trunc: bool, why: Why): Reply<nat>
    requires fs.Valid() && Faults(str)
  {
    var found :=
      if creat then CreateReply(fs, ops, str, excl, why)
      else
        match Named(fs, str, Ask(true, false))
        case Failed(e, stray) => Reply(Err(e), stray)
        case Found(_, comp, _) =>
          var v := comp.value;
          if (write || trunc) && fs.vtype(v) == VDIR then Reply(Err(EISDIR), Balanced)
          else if (write || trunc) && ops.rdonly(v) then Reply(Err(EROFS), Balanced)
          else if trunc && ops.locked(v) && ops.mandlock(v) == Ok(true) then Reply(Err(EAGAIN), Balanced)
          else if trunc && ops.locked(v) && ops.mandlock(v).Err? then Reply(Err(ops.mandlock(v).error), Balanced)
          else if ops.access(v) != 0 then Reply(Err(ops.access(v)), Balanced)
          else Reply(Ok(v), Balanced);
    if found.answer.Err? then found
    else
      var got := ops.open(found.answer.value);
      if got.Ok? && trunc && !creat && ops.truncate(got.value) != 0 then
        Reply(Err(ops.truncate(got.value)), Balanced)
      else Reply(got, Balanced)
  }

  function LinkReply(fs: FileSys, ops: Ops, from: Answer<Path>, to: Answer<Path>): Reply<()>
    requires fs.Valid() && Faults(from) && Faults(to)
  {
    if UserPath(to).Err? then Reply(Err(UserPath(to).error), Balanced)
    else
      match Named(fs, from, Ask(false, false))
      case Failed(e, stray) => Reply(Err(e), stray)
      case Found(_, comp, _) =>
        match Named(fs, to, Ask(false, true))
        case Failed(e, stray) => Reply(Err(e), stray)
        case Found(dir, _, name) =>
          var f, t := comp.value, dir.value;
          if ops.fsid(f).Err? then Reply(Err(ops.fsid(f).error), Balanced)
          else if ops.fsid(t).Err? then Reply(Err(ops.fsid(t).error), Balanced)
          else if ops.fsid(f) != ops.fsid(t) then Reply(Err(EXDEV), Balanced)
          else if ops.rdonly(t) then Reply(Err(EROFS), Balanced)
          else Reply(Status(ops.link(t, f, name)), Balanced)
  }

  function Status(error: nat): Answer<()>
  {
    if error == 0 then Ok(()) else Err(error)
  }

  function RenameReply(fs: FileSys, ops: Ops, from: Answer<Path>, to: Answer<Path>): Reply<()>
    requires fs.Valid() && Faults(from) && Faults(to)
  {
    if UserPath(from).Err? then Reply(Err(UserPath(from).error), Balanced)
    else if UserPath(to).Err? then Reply(Err(UserPath(to).error), Balanced)
    else
      match Named(fs, from, Ask(false, true))
      case Failed(e, stray) => Reply(Err(e), stray)
      case Found(fdir, comp, fname) =>
        if comp == None then Reply(Err(ENOENT), Balanced)
        else
          match Named(fs, to, Ask(false, true))
          case Failed(e, stray) => Reply(Err(e), stray)
          case Found(tdir, _, tname) =>
            var fd, f, t := fdir.value, comp.value, tdir.value;
            if ops.vfsp(f) != ops.vfsp(t) || ops.vfsp(fd) != ops.vfsp(t) then Reply(Err(EXDEV), Balanced)
            else if ops.rdonly(t) then Reply(Err(EROFS), Balanced)
            else Reply(Status(ops.rename(fd, fname, t, tname)), Balanced)
  }

  /** vn_remove; also the directory whose mount was undone on the way, if any. */
  function RemoveReply(fs: FileSys, ops: Ops, str: Answer<Path>, rmdir: bool): (Reply<()>, Option<nat>)
    requires fs.Valid() && Faults(str)
  {
    if UserPath(str).Err? then (Reply(Err(UserPath(str).error), Balanced), None)
    else
      match Named(fs, str, Ask(false, true))
      case Failed(e, stray) => (Reply(Err(e), stray), None)
      case Found(dir, comp, name) =>
        if comp == None then (Reply(Err(ENOENT), Balanced), None)
        else
          var c := comp.value;
          if fs.vroot(c) && !ops.unlinkable(c) then (Reply(Err(EBUSY), Balanced), None)
          else if fs.vroot(c) && ops.unmount(c) != 0 then (Reply(Err(ops.unmount(c)), Balanced), None)
          else
            var v := if fs.vroot(c) then fs.covered(c) else c;
            var undone := if fs.vroot(c) then Some(v) else None;
            if ops.rdonly(v) then (Reply(Err(EROFS), Balanced), undone)
            else if rmdir && fs.vtype(v) != VDIR then (Reply(Err(ENOTDIR), Balanced), undone)
            else (Reply(Status(if rmdir then ops.rmdir(dir.value, name) else ops.remove(dir.value, name)), Balanced), undone)
  }
}

/** The clients inherit what lookups promise. */
module VnodeLaws {
  import opened Common
  import opened PathText
  import opened PathWalk
  import opened VnodeSpec
  import opened PathLaws

  /** Without mounts on roots of mounted file systems none of them ever leaves a hold behind or
      gives one back too often, whatever fails. */
  lemma ClientsBalance(fs: FileSys, ops: Ops, from: Answer<Path>, to: Answer<Path>)
    requires fs.Valid() && NoStackedMounts(fs) && Faults(from) && Faults(to)
    ensures forall excl, why :: CreateReply(fs, ops, from, excl, why).stray == Balanced
    ensures forall write, creat, excl, trunc, why :: OpenReply(fs, ops, from, write, creat, excl, trunc, why).stray == Balanced
    ensures LinkReply(fs, ops, from, to).stray == Balanced
    ensures RenameReply(fs, ops, from, to).stray == Balanced
    ensures forall rmdir :: RemoveReply(fs, ops, from, rmdir).0.stray == Balanced
  {
    hide Named, FileSys.Valid, NoStackedMounts;
    forall ask: Ask ensures Kept(Named(fs, from, ask)) && Kept(Named(fs, to, ask)) {
      NamedKept(fs, from, ask);
      NamedKept(fs, to, ask);
    }
  }

  /** Locked, with mandatory locking in force or its mode not to be had. */
  predicate MandLocked(ops: Ops, v: nat)
  {
    ops.locked(v) && (ops.mandlock(v).Err? || ops.mandlock(v).value)
  }

  /** vn_open of a name, not to create it, hands out the vnode VOP_OPEN leaves if and only if the name is
      found, what is to be written or truncated is no directory and not on a read-only file system, what
      is to be truncated is not locked, access is granted, and opening and truncation succeed. */
  lemma OpensIff(fs: FileSys, ops: Ops, str: Answer<Path>, write: bool, trunc: bool, why: Why, w: nat)
    requires fs.Valid() && Faults(str)
    ensures OpenReply(fs, ops, str, write, false, false, trunc, why).answer == Ok(w) <==>
              var o := Named(fs, str, Ask(true, false));
              && o.Found? && o.comp.Some? && var v := o.comp.value;
              && (write || trunc ==> fs.vtype(v) != VDIR && !ops.rdonly(v)) && (trunc ==> !MandLocked(ops, v))
              && ops.access(v) == 0 && ops.open(v) == Ok(w) && (trunc ==> ops.truncate(w) == 0)
  {
    hide FileSys.Valid, Named;
    FoundHas(fs, str, Ask(true, false));
  }

  lemma FoundHas(fs: FileSys, str: Answer<Path>, ask: Ask)
    requires fs.Valid() && Faults(str)
    ensures var o := Named(fs, str, ask);
            && (o.Found? ==> (o.dir.Some? <==> ask.wantDir) && (o.comp.None? ==> ask.wantDir))
            && (UserPath(str).Err? ==> o == Failed(UserPath(str).error, Balanced))
  {}

  /** What it answers otherwise: of the reasons that hold, the one named first here. */
  lemma OpenRefusals(fs: FileSys, ops: Ops, str: Answer<Path>, write: bool, trunc: bool, why: Why, v: nat)
    requires fs.Valid() && Faults(str)
    requires Named(fs, str, Ask(true, false)).Found? && Named(fs, str, Ask(true, false)).comp == Some(v)
    ensures var a := OpenReply(fs, ops, str, write, false, false, trunc, why).answer;
            var dir, ro, held := (write || trunc) && fs.vtype(v) == VDIR, (write || trunc) && ops.rdonly(v), trunc && MandLocked(ops, v);
            && (dir ==> a == Err(EISDIR))
            && (ro && !dir ==> a == Err(EROFS))
            && (held && !ro && !dir ==> a == Err(if ops.mandlock(v).Err? then ops.mandlock(v).error else EAGAIN))
            && (ops.access(v) != 0 && !held && !ro && !dir ==> a == Err(ops.access(v)))
            && (ops.open(v).Err? && ops.access(v) == 0 && !held && !ro && !dir ==> a == ops.open(v))
  {
    hide FileSys.Valid, Named;
  }

  /** Opening to create is creating, or finding, and then VOP_OPEN; nothing is truncated again. */
  lemma CreatesThenOpens(fs: FileSys, ops: Ops, str: Answer<Path>, write: bool, excl: bool, trunc: bool, why: Why)
    requires fs.Valid() && Faults(str)
    ensures var made := CreateReply(fs, ops, str, excl, why);
            var r := OpenReply(fs, ops, str, write, true, excl, trunc, why);
            if made.answer.Ok? then r.answer == ops.open(made.answer.value) else r == made
  {
    hide FileSys.Valid, CreateReply;
  }

  /** vn_create makes its vnode in the directory of the name, which must be writable; a vnode found there,
      when that is no error, must not be locked, and when it is the root of a mounted file system it is
      created through that. */
  lemma CreatesIff(fs: FileSys, ops: Ops, str: Answer<Path>, excl: bool, why: Why, w: nat)
    requires fs.Valid() && Faults(str)
    ensures CreateReply(fs, ops, str, excl, why).answer == Ok(w) <==>
              var o := Named(fs, str, Ask(!excl, true));
              && o.Found? && o.dir.Some? && !ops.rdonly(o.dir.value)
              && var old_ := !excl && o.comp.Some?;
              && (old_ ==> !MandLocked(ops, o.comp.value))
              && Ok(w) == if old_ && fs.vroot(o.comp.value) then ops.create(o.comp.value, [])
                          else if why == CRMKDIR then ops.mkdir(o.dir.value, o.name) else ops.create(o.dir.value, o.name)
  {
    hide FileSys.Valid, Named;
    FoundHas(fs, str, Ask(!excl, true));
  }

  /** mkdir of a path that names no entry says that the directory exists; other errors are the lookup's. */
  lemma CreateUnfound(fs: FileSys, ops: Ops, str: Answer<Path>, excl: bool, why: Why)
    requires fs.Valid() && Faults(str) && UserPath(str).Ok? && Named(fs, str, Ask(!excl, true)).Failed?
    ensures var o := Named(fs, str, Ask(!excl, true));
            CreateReply(fs, ops, str, excl, why) == Reply(Err(if why == CRMKDIR && o.error == EINVAL then EEXIST else o.error), o.stray)
  {
    hide FileSys.Valid, Named;
  }

  /** A link is made if and only if the old name and the directory of the new are found, on one file
      system, which is writable there, and VOP_LINK makes it. */
  lemma LinksIff(fs: FileSys, ops: Ops, from: Answer<Path>, to: Answer<Path>)
    requires fs.Valid() && Faults(from) && Faults(to)
    ensures LinkReply(fs, ops, from, to).answer.Ok? <==>
              var o, n := Named(fs, from, Ask(false, false)), Named(fs, to, Ask(false, true));
              && o.Found? && o.comp.Some? && n.Found? && n.dir.Some? && var f, t := o.comp.value, n.dir.value;
              && ops.fsid(f).Ok? && ops.fsid(t) == ops.fsid(f) && !ops.rdonly(t) && ops.link(t, f, n.name) == 0
    ensures var o, n := Named(fs, from, Ask(false, false)), Named(fs, to, Ask(false, true));
            (UserPath(to).Ok? && o.Found? && n.Found? && o.comp.Some? && n.dir.Some?
             && ops.fsid(o.comp.value).Ok? && ops.fsid(n.dir.value).Ok? && ops.fsid(o.comp.value) != ops.fsid(n.dir.value))
            ==> LinkReply(fs, ops, from, to).answer == Err(EXDEV)
  {
    hide FileSys.Valid, Named;
    FoundHas(fs, from, Ask(false, false));
    FoundHas(fs, to, Ask(false, true));
  }

  /** A name is changed if and only if there is such an entry, its directory, its vnode and the new
      directory are all on one file system, which is writable, and VOP_RENAME succeeds. */
  lemma RenamesIff(fs: FileSys, ops: Ops, from: Answer<Path>, to: Answer<Path>)
    requires fs.Valid() && Faults(from) && Faults(to)
    ensures RenameReply(fs, ops, from, to).answer.Ok? <==>
              var o, n := Named(fs, from, Ask(false, true)), Named(fs, to, Ask(false, true));
              && o.Found? && o.comp.Some? && o.dir.Some? && n.Found? && n.dir.Some?
              && var d, f, t := o.dir.value, o.comp.value, n.dir.value;
              && ops.vfsp(d) == ops.vfsp(f) == ops.vfsp(t) && !ops.rdonly(t) && ops.rename(d, o.name, t, n.name) == 0
    ensures var o := Named(fs, from, Ask(false, true));
            UserPath(to).Ok? && o.Found? && o.comp.None? ==> RenameReply(fs, ops, from, to).answer == Err(ENOENT)
  {
    hide FileSys.Valid, Named;
    FoundHas(fs, from, Ask(false, true));
    FoundHas(fs, to, Ask(false, true));
  }

  /** Removing: a mount on the entry is undone if and only if its file system is unlinkable and the
      unmount succeeds, whether or not the removal then does; the entry goes if and only if there is
      one, no other mount is on it, what is then there is writable and for rmdir a directory, and
      VOP_RMDIR or VOP_REMOVE succeeds. */
  lemma RemovesIff(fs: FileSys, ops: Ops, str: Answer<Path>, rmdir: bool)
    requires fs.Valid() && Faults(str)
    ensures var (r, undone) := RemoveReply(fs, ops, str, rmdir);
            var o := Named(fs, str, Ask(false, true));
            && (undone.Some? <==> o.Found? && o.comp.Some? && fs.vroot(o.comp.value) && ops.unlinkable(o.comp.value)
                                  && ops.unmount(o.comp.value) == 0)
            && (undone.Some? ==> undone.value == fs.covered(o.comp.value))
            && (r.answer.Ok? <==>
                  && o.Found? && o.comp.Some? && o.dir.Some? && (undone.Some? || !fs.vroot(o.comp.value))
                  && var v := if undone.Some? then undone.value else o.comp.value;
                  && !ops.rdonly(v) && (rmdir ==> fs.vtype(v) == VDIR)
                  && 0 == if rmdir then ops.rmdir(o.dir.value, o.name) else ops.remove(o.dir.value, o.name))
            && (o.Found? && o.comp.None? ==> r.answer == Err(ENOENT))
            && (o.Found? && o.comp.Some? && fs.vroot(o.comp.value) && !ops.unlinkable(o.comp.value) ==> r.answer == Err(EBUSY))
  {
    hide FileSys.Valid, Named;
    FoundHas(fs, str, Ask(false, true));
  }

  /** A path given to any of them is its names, from the root if it begins with a slash and from the current
      directory otherwise; one that cannot be read, or does not fit, is refused unseen. */
  lemma NamedIs(fs: FileSys, str: Answer<Path>, ask: Ask)
    requires fs.Valid() && Faults(str) && CleanLinks(fs)
    ensures str.Err? ==> Named(fs, str, ask) == Failed(str.error, Balanced)
    ensures str.Ok? && |CString(str.value)| >= MAXPATHLEN ==> Named(fs, str, ask) == Failed(ENAMETOOLONG, Balanced)
    ensures str.Ok? && str.value == [] ==> Named(fs, str, ask) == Failed(ENOENT, Balanced)
    ensures str.Ok? && 0 < |str.value| < MAXPATHLEN && Clean(str.value) ==>
              Agree(Named(fs, str, ask), ListWalk(fs, if str.value[0] == '/' then fs.Root() else fs.cdir, Pieces(str.value), 0, ask))
  {
    if str.Ok? && 0 < |str.value| < MAXPATHLEN && Clean(str.value) {
      hide Interpret, ListWalk, Pieces;
      WholeString(str.value);
      InterpretIsListWalk(fs, fs.cdir, str.value, 0, ask);
    }
  }

  lemma {:induction false} WholeString(s: Path)
    requires Clean(s)
    ensures CString(s) == s
  {
    if s != [] { WholeString(s[1..]); }
  }

  lemma NamedKept(fs: FileSys, str: Answer<Path>, ask: Ask)
    requires fs.Valid() && NoStackedMounts(fs) && Faults(str)
    ensures Kept(Named(fs, str, ask))
  {
    hide Interpret;
    if UserPath(str).Ok? {
      NoStraysInterpret(fs, fs.cdir, UserPath(str).value, 0, ask);
    }
  }
}

module Vnode {
  import opened Common
  import opened PathText
  import opened PathWalk
  import opened Pathname
  import opened Lookup
  import opened VnodeSpec

  /** The counts a routine leaves: its vnode handed back held, or nothing but what a failed
      lookup mislaid. */
  ghost predicate Settled(before: Counts, r: Reply<nat>, after: Counts)
  {
    if r.answer.Ok? then r.answer.value < |before| && after == Hold(before, r.answer.value)
    else Undisturbed(before, r.stray, after)
  }

  ghost predicate Undisturbed(before: Counts, stray: Stray, after: Counts)
  {
    (stray.Strayed? ==> stray.lost < |before| && stray.kept < |before|) && after == WithStray(before, stray)
  }

  method PnGet(k: Names, str: Answer<Path>) returns (error: nat, pn: Pn)
    requires k.Valid() && Faults(str)
    modifies k`pnbufs, k`pnfree
    ensures k.Valid() && fresh(pn) && fresh(pn.buf)
    ensures match UserPath(str)
            case Err(e) => error == e && e != 0 && k.InUse() == old(k.InUse())
            case Ok(s) => error == 0 && k.InUse() == old(k.InUse()) + 1
                          && pn.Terminable() && pn.path == 0 && pn.pathlen >= 0 && pn.Text() == s
  {
    hide FileSys.Valid;
    pn := k.PnAlloc();
    match str {
      case Err(e) =>
        k.PnFree();
        error := e;
      case Ok(s) =>
        var ok := pn.Set(s);
        error := 0;
        if !ok {
          k.PnFree();
          error := ENAMETOOLONG;
        }
    }
  }

  method LookupName(k: Names, str: Answer<Path>, ask: Ask, wantComp: bool)
    returns (error: nat, dir: Option<nat>, comp: Option<nat>)
    requires k.Valid() && Faults(str)
    modifies k`count, k`pnbufs, k`pnfree
    ensures k.Valid() && k.InUse() == old(k.InUse())
    ensures Returned(Named(k.fs, str, ask), wantComp, old(k.count), error, dir, comp, k.count)
  {
    hide FileSys.Valid, Interpret, Pn.Text, Returned;
    var pn;
    error, pn := PnGet(k, str);
    if error != 0 {
      Fails(Named(k.fs, str, ask), error, wantComp, k.count);
      return error, None, None;
    }
    error, dir, comp := k.LookupPn(pn, ask, wantComp);
    k.PnFree();
  }

  lemma Unheld(c: Counts, a: Option<nat>, b: Option<nat>)
    requires (a.Some? ==> a.value < |c|) && (b.Some? ==> b.value < |c|)
    ensures b.Some? ==> Rele(HoldAll(HoldAll(c, a), b), b.value) == HoldAll(c, a)
    ensures a.Some? ==> Rele(HoldAll(HoldAll(c, a), b), a.value) == HoldAll(c, b)
    ensures a.Some? ==> Rele(HoldAll(c, a), a.value) == c
    ensures b.Some? ==> Rele(HoldAll(c, b), b.value) == c
    ensures HoldAll(HoldAll(c, a), b) == HoldAll(HoldAll(c, b), a)
    ensures HoldAll(c, None) == c && WithStray(c, Balanced) == c
  {}

  /** A parent that is handed back can be relied on, and so can a component. */
  lemma InBounds(fs: FileSys, str: Answer<Path>, ask: Ask)
    requires fs.Valid() && Faults(str)
    ensures var o := Named(fs, str, ask);
            && (o.Failed? ==> o.error != 0)
            && (o.Found? ==> (o.dir.Some? <==> ask.wantDir) && (o.dir.Some? ==> o.dir.value < fs.size)
                             && (o.comp.None? ==> ask.wantDir) && (o.comp.Some? ==> o.comp.value < fs.size))
  {}

  lemma OpBounds(fs: FileSys, ops: Ops, v: nat, name: Path)
    requires fs.Valid() && ops.Valid(fs) && v < fs.size
    ensures ops.create(v, name).Ok? ==> ops.create(v, name).value < fs.size
    ensures ops.mkdir(v, name).Ok? ==> ops.mkdir(v, name).value < fs.size
    ensures ops.open(v).Ok? ==> ops.open(v).value < fs.size
    ensures ops.create(v, name).Err? ==> ops.create(v, name).error != 0
    ensures ops.mkdir(v, name).Err? ==> ops.mkdir(v, name).error != 0
    ensures ops.open(v).Err? ==> ops.open(v).error != 0
    ensures ops.fsid(v).Err? ==> ops.fsid(v).error != 0
    ensures ops.mandlock(v).Err? ==> ops.mandlock(v).error != 0
    ensures fs.vroot(v) && ops.unlinkable(v) ==> fs.covered(v) < fs.size
  {}

  /** vn_create */
  method VnCreate(k: Names, ops: Ops, str: Answer<Path>, excl: bool, why: Why) returns (r: Answer<nat>)
    requires k.Valid() && ops.Valid(k.fs) && Faults(str)
    modifies k`count, k`pnbufs, k`pnfree
    ensures k.Valid() && k.InUse() == old(k.InUse())
    ensures r == CreateReply(k.fs, ops, str, excl, why).answer
    ensures Settled(old(k.count), CreateReply(k.fs, ops, str, excl, why), k.count)
  {
    hide FileSys.Valid, Ops.Valid, Interpret, Pn.Text, UserPath, Hold, Rele;
    ghost var c0 := k.count;
    InBounds(k.fs, str, Ask(!excl, true));
    var error, pn := PnGet(k, str);
    if error != 0 {
      return Err(error);
    }
    var dvp, vpp;
    if excl {
      error, dvp, vpp := k.LookupPn(pn, Ask(false, true), false);
    } else {
      error, dvp, vpp := k.LookupPn(pn, Ask(true, true), true);
    }
    if error != 0 {
      k.PnFree();
      return Err(if why == CRMKDIR && error == EINVAL then EEXIST else error);
    }
    r := MakeNode(k, ops, dvp.value, vpp, pn.Text(), excl, why, c0);
    k.PnFree();
  }

  /** vn_create once the directory is found. */
  method MakeNode(k: Names, ops: Ops, dvp: nat, vpp: Option<nat>, name: Path, excl: bool, why: Why, ghost c0: Counts)
    returns (r: Answer<nat>)
    requires k.Valid() && ops.Valid(k.fs) && dvp < k.fs.size && (vpp.Some? ==> vpp.value < k.fs.size && !excl)
    requires |c0| == k.fs.size && k.count == HoldAll(Hold(c0, dvp), vpp)
    modifies k`count
    ensures k.Valid()
    ensures r == if ops.rdonly(dvp) then Err(EROFS)
                 else if vpp.Some? && ops.locked(vpp.value) && ops.mandlock(vpp.value) != Ok(false) then
                   Err(if ops.mandlock(vpp.value).Err? then ops.mandlock(vpp.value).error else EAGAIN)
                 else if vpp.Some? && k.fs.vroot(vpp.value) then ops.create(vpp.value, [])
                 else if why == CRMKDIR then ops.mkdir(dvp, name)
                 else ops.create(dvp, name)
    ensures if r.Ok? then r.value < k.fs.size && k.count == Hold(c0, r.value) else k.count == c0
  {
    hide FileSys.Valid, Ops.Valid, Hold, Rele;
    Unheld(c0, Some(dvp), vpp);
    OpBounds(k.fs, ops, dvp, name);
    if ops.rdonly(dvp) {
      if vpp.Some? {
        k.VnRele(vpp.value);
      }
      k.VnRele(dvp);
      return Err(EROFS);
    }
    if !excl && vpp.Some? {
      var vp := vpp.value;
      OpBounds(k.fs, ops, vp, []);
      if ops.locked(vp) {
        match ops.mandlock(vp) {
          case Err(e) =>
            k.VnRele(vp);
            k.VnRele(dvp);
            return Err(e);
          case Ok(held) =>
            if held {
              k.VnRele(vp);
              k.VnRele(dvp);
              return Err(EAGAIN);
            }
        }
      }
      if k.fs.vroot(vp) {
        r := ops.create(vp, []);
        if r.Ok? {
          NewHold(c0, dvp, vpp, r.value);
          k.VnHold(r.value); // VOP_CREATE returns it held
        }
        k.VnRele(vp);
        k.VnRele(dvp);
        return;
      }
      k.VnRele(vp);
    }
    r := if why == CRMKDIR then ops.mkdir(dvp, name) else ops.create(dvp, name);
    if r.Ok? {
      NewHold(c0, dvp, None, r.value);
      k.VnHold(r.value); // VOP_MKDIR and VOP_CREATE return it held
    }
    k.VnRele(dvp);
  }

  lemma NewHold(c: Counts, d: nat, v: Option<nat>, w: nat)
    requires d < |c| && (v.Some? ==> v.value < |c|) && w < |c|
    ensures v.Some? ==> Rele(Rele(Hold(HoldAll(Hold(c, d), v), w), v.value), d) == Hold(c, w)
    ensures Rele(Hold(Hold(c, d), w), d) == Hold(c, w)
  {}

  /** vn_open, its flags as booleans. */
  method VnOpen(k: Names, ops: Ops, str: Answer<Path>, write: bool, creat: bool, excl: bool, trunc: bool, why: Why)
    returns (r: Answer<nat>)
    requires k.Valid() && ops.Valid(k.fs) && Faults(str)
    modifies k`count, k`pnbufs, k`pnfree
    ensures k.Valid() && k.InUse() == old(k.InUse())
    ensures r == OpenReply(k.fs, ops, str, write, creat, excl, trunc, why).answer
    ensures Settled(old(k.count), OpenReply(k.fs, ops, str, write, creat, excl, trunc, why), k.count)
  {
    hide FileSys.Valid, Ops.Valid, Named, CreateReply, Hold, Rele;
    ghost var c0 := k.count;
    var vp;
    if creat {
      r := VnCreate(k, ops, str, excl, why);
      if r.Err? {
        return;
      }
      vp := r.value;
    } else {
      InBounds(k.fs, str, Ask(true, false));
      var error, dir, comp := LookupName(k, str, Ask(true, false), true);
      if error != 0 {
        return Err(error);
      }
      vp := comp.value;
      Unheld(c0, None, comp);
      OpBounds(k.fs, ops, vp, []);
      if write || trunc {
        if k.fs.vtype(vp) == VDIR {
          k.VnRele(vp);
          return Err(EISDIR);
        }
        if ops.rdonly(vp) {
          k.VnRele(vp);
          return Err(EROFS);
        }
        if trunc && ops.locked(vp) {
          match ops.mandlock(vp) {
            case Err(e) =>
              k.VnRele(vp);
              return Err(e);
            case Ok(held) =>
              if held {
                k.VnRele(vp);
                return Err(EAGAIN);
              }
          }
        }
      }
      if ops.access(vp) != 0 {
        k.VnRele(vp);
        return Err(ops.access(vp));
      }
    }
    r := OpenNode(k, ops, vp, trunc && !creat, c0);
  }

  /** The opening protocol at the end of vn_open. */
  method OpenNode(k: Names, ops: Ops, vp: nat, trunc: bool, ghost c0: Counts) returns (r: Answer<nat>)
    requires k.Valid() && ops.Valid(k.fs) && vp < k.fs.size && |c0| == k.fs.size && k.count == Hold(c0, vp)
    modifies k`count
    ensures k.Valid()
    ensures r == if ops.open(vp).Ok? && trunc && ops.truncate(ops.open(vp).value) != 0 then Err(ops.truncate(ops.open(vp).value))
                 else ops.open(vp)
    ensures if r.Ok? then r.value < k.fs.size && k.count == Hold(c0, r.value) else k.count == c0
  {
    hide FileSys.Valid, Ops.Valid, Hold, Rele;
    OpBounds(k.fs, ops, vp, []);
    Unheld(c0, Some(vp), None);
    match ops.open(vp) {
      case Err(e) =>
        k.VnRele(vp);
        return Err(e);
      case Ok(w) =>
        NewHold(c0, vp, None, w);
        Unheld(c0, Some(w), None);
        k.VnHold(w); // VOP_OPEN has put w in place of vp
        k.VnRele(vp);
        if trunc && ops.truncate(w) != 0 {
          k.VnRele(w);
          return Err(ops.truncate(w));
        }
        return Ok(w);
    }
  }

  /** vn_link */
  method VnLink(k: Names, ops: Ops, from: Answer<Path>, to: Answer<Path>) returns (r: Answer<()>)
    requires k.Valid() && ops.Valid(k.fs) && Faults(from) && Faults(to)
    modifies k`count, k`pnbufs, k`pnfree
    ensures k.Valid() && k.InUse() == old(k.InUse())
    ensures r == LinkReply(k.fs, ops, from, to).answer
    ensures Undisturbed(old(k.count), LinkReply(k.fs, ops, from, to).stray, k.count)
  {
    hide FileSys.Valid, Ops.Valid, Interpret, UserPath, Pn.Text, Hold, Rele;
    ghost var c0 := k.count;
    InBounds(k.fs, from, Ask(false, false));
    InBounds(k.fs, to, Ask(false, true));
    Unheld(c0, None, None);
    var error, pn := PnGet(k, to);
    if error != 0 {
      return Err(error);
    }
    var none, fvp, tdvp, tvp;
    error, none, fvp := LookupName(k, from, Ask(false, false), true);
    if error != 0 {
      k.PnFree();
      return Err(error);
    }
    error, tdvp, tvp := k.LookupPn(pn, Ask(false, true), false);
    if error == 0 {
      error := TryLink(k, ops, fvp.value, tdvp.value, pn.Text());
    }
    k.PnFree();
    LinkCounts(c0, fvp, tdvp, k.count, Named(k.fs, to, Ask(false, true)));
    if fvp.Some? {
      k.VnRele(fvp.value);
    }
    if tdvp.Some? {
      k.VnRele(tdvp.value);
    }
    r := Status(error);
  }

  /** The checks of vn_link, and VOP_LINK. */
  method TryLink(k: Names, ops: Ops, fvp: nat, tdvp: nat, name: Path) returns (error: nat)
    requires k.Valid() && ops.Valid(k.fs) && fvp < k.fs.size && tdvp < k.fs.size
    ensures Status(error) == if ops.fsid(fvp).Err? then Err(ops.fsid(fvp).error)
                             else if ops.fsid(tdvp).Err? then Err(ops.fsid(tdvp).error)
                             else if ops.fsid(fvp) != ops.fsid(tdvp) then Err(EXDEV)
                             else if ops.rdonly(tdvp) then Err(EROFS)
                             else Status(ops.link(tdvp, fvp, name))
  {
    hide FileSys.Valid, Ops.Valid;
    OpBounds(k.fs, ops, fvp, []);
    OpBounds(k.fs, ops, tdvp, []);
    if ops.fsid(fvp).Err? {
      return ops.fsid(fvp).error;
    }
    var fsid := ops.fsid(fvp).value;
    if ops.fsid(tdvp).Err? {
      return ops.fsid(tdvp).error;
    }
    if fsid != ops.fsid(tdvp).value {
      return EXDEV;
    }
    if ops.rdonly(tdvp) {
      return EROFS;
    }
    error := ops.link(tdvp, fvp, name);
  }

  /** A second lookup on top of vnodes already held, and everything given back. */
  lemma LinkCounts(c: Counts, a: Option<nat>, b: Option<nat>, after: Counts, o: Outcome)
    requires a.Some? ==> a.value < |c|
    requires o.Found? ==> o.dir == b && (b.Some? ==> b.value < |c|) && after == HoldAll(HoldAll(c, a), b)
    requires o.Failed? ==> b == None && Undisturbed(HoldAll(c, a), o.stray, after)
    ensures var d := if a.Some? then (assert a.value < |after|; Rele(after, a.value)) else after;
            if o.Found? then (if b.Some? then |d| > b.value && Rele(d, b.value) == c else d == c)
            else Undisturbed(c, o.stray, d)
  {}

  /** vn_rename */
  method VnRename(k: Names, ops: Ops, from: Answer<Path>, to: Answer<Path>) returns (r: Answer<()>)
    requires k.Valid() && ops.Valid(k.fs) && Faults(from) && Faults(to)
    modifies k`count, k`pnbufs, k`pnfree
    ensures k.Valid() && k.InUse() == old(k.InUse())
    ensures r == RenameReply(k.fs, ops, from, to).answer
    ensures Undisturbed(old(k.count), RenameReply(k.fs, ops, from, to).stray, k.count)
  {
    hide FileSys.Valid, Ops.Valid, Interpret, UserPath, Pn.Text, HoldAll, Rele, Returned, WithStray;
    ghost var c0 := k.count;
    Unheld(c0, None, None);
    var error, fpn := PnGet(k, from);
    if error != 0 {
      return Err(error);
    }
    var tpn;
    error, tpn := PnGet(k, to);
    if error != 0 {
      k.PnFree();
      return Err(error);
    }
    var fdvp, fvp, tdvp;
    ghost var fo, to_ := Named(k.fs, from, Ask(false, true)), Named(k.fs, to, Ask(false, true));
    InBounds(k.fs, from, Ask(false, true));
    InBounds(k.fs, to, Ask(false, true));
    error, fdvp, fvp := k.LookupPn(fpn, Ask(false, true), true);
    FoundCounts(fo, true, c0, error, fdvp, fvp, k.count);
    if error != 0 {
      k.PnFree();
      k.PnFree();
      return Err(error);
    }
    tdvp := None;
    Unheld(k.count, None, None);
    if fvp == None {
      error := ENOENT;
    } else {
      error, tdvp := RenameTo(k, ops, fdvp.value, fvp.value, fpn.Text(), tpn, k.count, to_);
      Unheld(k.count, None, None);
    }
    k.PnFree();
    k.PnFree();
    DropThree(k, fdvp, fvp, tdvp, c0, if fvp == None then Balanced else StrayOf(to_));
    r := Status(error);
  }

  /** The way out of vn_rename. */
  method DropThree(k: Names, fdvp: Option<nat>, fvp: Option<nat>, tdvp: Option<nat>, ghost c0: Counts, ghost stray: Stray)
    requires k.Valid() && |c0| == k.fs.size && (stray.Balanced? || tdvp == None)
    requires (fdvp.Some? ==> fdvp.value < |c0|) && (fvp.Some? ==> fvp.value < |c0|) && (tdvp.Some? ==> tdvp.value < |c0|)
    requires stray.Strayed? ==> stray.lost < |c0| && stray.kept < |c0|
    requires k.count == HoldAll(WithStray(HoldAll(HoldAll(c0, fdvp), fvp), stray), tdvp)
    modifies k`count
    ensures k.Valid() && k.count == WithStray(c0, stray)
  {
    hide FileSys.Valid, HoldAll, Rele, WithStray;
    RenameCounts(c0, fdvp, fvp, tdvp, k.count, stray);
    if fvp.Some? {
      k.VnRele(fvp.value);
    }
    if fdvp.Some? {
      k.VnRele(fdvp.value);
    }
    if tdvp.Some? {
      k.VnRele(tdvp.value);
    }
  }

  function StrayOf(o: Outcome): Stray
  {
    if o.Failed? then o.stray else Balanced
  }

  lemma FoundCounts(o: Outcome, wantComp: bool, before: Counts, error: nat, dir: Option<nat>, comp: Option<nat>, after: Counts)
    requires Returned(o, wantComp, before, error, dir, comp, after)
    ensures o.Failed? ==> error == o.error && dir == None && comp == None && Undisturbed(before, o.stray, after)
    ensures o.Found? ==> error == 0 && dir == o.dir && comp == (if wantComp then o.comp else None)
    ensures o.Found? ==> (dir.Some? ==> dir.value < |before|) && (comp.Some? ==> comp.value < |before|)
                         && after == HoldAll(HoldAll(before, dir), comp)
  {}

  /** The second half of vn_rename, with the old name's directory and vnode held. */
  method RenameTo(k: Names, ops: Ops, fdvp: nat, fvp: nat, fname: Path, tpn: Pn, ghost c1: Counts, ghost o: Outcome)
    returns (error: nat, tdvp: Option<nat>)
    requires k.Valid() && fdvp < k.fs.size && fvp < k.fs.size && |c1| == k.fs.size && k.count == c1
    requires tpn.Terminable() && tpn.path == 0 && tpn.pathlen >= 0
    requires o == Interpret(k.fs, k.fs.cdir, tpn.Text(), 0, Ask(false, true))
    modifies k`count, k`pnbufs, k`pnfree, tpn, tpn.buf
    ensures k.Valid() && k.InUse() == old(k.InUse())
    ensures o.Failed? ==> error == o.error && error != 0 && tdvp == None && Undisturbed(c1, o.stray, k.count)
    ensures o.Found? ==> o.dir.Some? && tdvp == o.dir && tdvp.value < k.fs.size && k.count == HoldAll(c1, tdvp)
    ensures o.Found? ==>
              var t := o.dir.value;
              Status(error) == if ops.vfsp(fvp) != ops.vfsp(t) || ops.vfsp(fdvp) != ops.vfsp(t) then Err(EXDEV)
                               else if ops.rdonly(t) then Err(EROFS)
                               else Status(ops.rename(fdvp, fname, t, o.name))
  {
    hide Interpret, Pn.Text, HoldAll, Returned, FileSys.Valid;
    var none;
    error, tdvp, none := k.LookupPn(tpn, Ask(false, true), false);
    FoundCounts(o, false, c1, error, tdvp, none, k.count);
    Unheld(c1, tdvp, None);
    if error != 0 {
      return;
    }
    var t := tdvp.value;
    if ops.vfsp(fvp) != ops.vfsp(t) || ops.vfsp(fdvp) != ops.vfsp(t) {
      error := EXDEV;
      return;
    }
    if ops.rdonly(t) {
      error := EROFS;
      return;
    }
    error := ops.rename(fdvp, fname, t, tpn.Text());
  }

  lemma RenameCounts(c: Counts, fd: Option<nat>, f: Option<nat>, t: Option<nat>, after: Counts, stray: Stray)
    requires (fd.Some? ==> fd.value < |c|) && (f.Some? ==> f.value < |c|) && (t.Some? ==> t.value < |c|)
    requires stray.Balanced? || t == None
    requires (stray.Strayed? ==> stray.lost < |c| && stray.kept < |c|)
             && after == HoldAll(WithStray(HoldAll(HoldAll(c, fd), f), stray), t)
    ensures var a := ReleAll(after, f);
            var b := ReleAll(a, fd);
            ReleAll(b, t) == WithStray(c, stray)
  {
    hide HoldAll, WithStray, Rele;
    var h := WithStray(HoldAll(c, fd), stray);
    StrayApart(HoldAll(c, fd), stray, f);
    StrayApart(c, stray, fd);
    Unheld(WithStray(c, stray), fd, f);
    Unheld(HoldAll(h, f), None, t);
    Unheld(h, f, t);
    Unheld(WithStray(c, stray), fd, t);
  }

  lemma StrayApart(c: Counts, stray: Stray, v: Option<nat>)
    requires (v.Some? ==> v.value < |c|) && (stray.Strayed? ==> stray.lost < |c| && stray.kept < |c|)
    ensures WithStray(HoldAll(c, v), stray) == HoldAll(WithStray(c, stray), v)
  {}

  function ReleAll(c: Counts, v: Option<nat>): (r: Counts)
    requires v.Some? ==> v.value < |c|
    ensures |r| == |c|
  {
    if v.Some? then Rele(c, v.value) else c
  }

  /** vn_remove. When the entry is the root of an unlinkable mount, that is undone first, and
      dounmount gives up the mount's own hold on the directory it covered. */
  method VnRemove(k: Names, ops: Ops, str: Answer<Path>, rmdir: bool) returns (r: Answer<()>)
    requires k.Valid() && ops.Valid(k.fs) && Faults(str)
    modifies k`count, k`pnbufs, k`pnfree
    ensures k.Valid() && k.InUse() == old(k.InUse())
    ensures var (reply, undone) := RemoveReply(k.fs, ops, str, rmdir);
            && r == reply.answer
            && (undone.Some? ==> undone.value < k.fs.size)
            && Undisturbed(ReleAll(old(k.count), undone), reply.stray, k.count)
  {
    hide FileSys.Valid, Ops.Valid, Interpret, UserPath, Pn.Text, Hold, Rele, Returned;
    ghost var c0, o := k.count, Named(k.fs, str, Ask(false, true));
    Unheld(c0, None, None);
    InBounds(k.fs, str, Ask(false, true));
    var error, pn := PnGet(k, str);
    if error != 0 {
      return Err(error);
    }
    var dvp, vp;
    error, dvp, vp := k.LookupPn(pn, Ask(false, true), true);
    FoundCounts(o, true, c0, error, dvp, vp, k.count);
    if error != 0 {
      k.PnFree();
      return Err(error);
    }
    ghost var undone: Option<nat> := None;
    if vp == None {
      error := ENOENT;
      Unheld(c0, dvp, None);
    } else {
      OpBounds(k.fs, ops, vp.value, []);
      error, undone := TryRemove(k, ops, dvp.value, vp.value, pn.Text(), rmdir, c0);
      Unheld(ReleAll(c0, undone), dvp, None);
    }
    k.PnFree();
    k.VnRele(dvp.value);
    r := Status(error);
  }

  /** vn_remove with the entry's vnode in hand, which it gives up. */
  method TryRemove(k: Names, ops: Ops, dvp: nat, found: nat, name: Path, rmdir: bool, ghost c0: Counts)
    returns (error: nat, ghost undone: Option<nat>)
    requires k.Valid() && dvp < k.fs.size && found < k.fs.size && |c0| == k.fs.size
    requires k.fs.vroot(found) && ops.unlinkable(found) ==> k.fs.covered(found) < k.fs.size
    requires k.count == Hold(Hold(c0, dvp), found)
    modifies k`count
    ensures k.Valid()
    ensures (undone.Some? ==> undone.value < k.fs.size) && k.count == HoldAll(ReleAll(c0, undone), Some(dvp))
    ensures
      if k.fs.vroot(found) && !ops.unlinkable(found) then error == EBUSY && undone == None
      else if k.fs.vroot(found) && ops.unmount(found) != 0 then error == ops.unmount(found) && undone == None
      else
        var v := if k.fs.vroot(found) then k.fs.covered(found) else found;
        && undone == (if k.fs.vroot(found) then Some(v) else None)
        && error == if ops.rdonly(v) then EROFS
                    else if rmdir && k.fs.vtype(v) != VDIR then ENOTDIR
                    else if rmdir then ops.rmdir(dvp, name) else ops.remove(dvp, name)
  {
    hide FileSys.Valid, Hold, Rele;
    undone := None;
    var vp := found;
    HoldRele(Hold(c0, dvp), found);
    if k.fs.vroot(vp) {
      if !ops.unlinkable(vp) {
        k.VnRele(vp);
        return EBUSY, None;
      }
      var coveredvp := k.fs.covered(vp);
      SwapCovered(c0, dvp, vp, coveredvp);
      k.VnHold(coveredvp);
      k.VnRele(vp);
      error := ops.unmount(vp);
      if error != 0 {
        k.VnRele(coveredvp);
        return;
      }
      k.VnRele(coveredvp); // dounmount: the mount's hold
      undone := Some(coveredvp);
      vp := coveredvp;
    }
    if ops.rdonly(vp) {
      k.VnRele(vp);
      return EROFS, undone;
    }
    var vtype := k.fs.vtype(vp);
    k.VnRele(vp);
    if rmdir {
      if vtype != VDIR {
        error := ENOTDIR;
      } else {
        error := ops.rmdir(dvp, name);
      }
    } else {
      error := ops.remove(dvp, name);
    }
  }

  lemma SwapCovered(c: Counts, d: nat, v: nat, w: nat)
    requires d < |c| && v < |c| && w < |c|
    ensures Rele(Rele(Hold(Hold(Hold(c, d), v), w), v), w) == Hold(c, d)
    ensures Rele(Hold(c, d), w) == Hold(Rele(c, w), d)
  {}
}
