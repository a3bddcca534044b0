/** Pathnames as text: what the buffer routines of fs/pathname.c do to the remaining path. */
module PathText {

  const MAXPATHLEN := 1024
  const MAXNAMELEN := 256

  type Path = seq<char>

  function SkipSlash(s: Path): (r: Path)
    ensures |r| <= |s| && (r != [] ==> r[0] != '/')
  {
    if s != [] && s[0] == '/' then SkipSlash(s[1..]) else s
  }

  function FixSlash(s: Path): (r: Path)
    ensures r <= s && (r != [] ==> r[|r| - 1] != '/')
    ensures s != [] && s[0] != '/' ==> r != []
  {
    if s != [] && s[|s| - 1] == '/' then FixSlash(s[..|s| - 1]) else s
  }

  /** The length of the first component of `s`. */
  function FirstLen(s: Path): (n: nat)
    ensures n <= |s| && '/' !in s[..n] && (n < |s| ==> s[n] == '/')
  {
    if s == [] || s[0] == '/' then 0 else 1 + FirstLen(s[1..])
  }

  function First(s: Path): Path { s[..FirstLen(s)] }

  function Rest(s: Path): (r: Path)
    ensures r != [] ==> r[0] == '/'
    ensures First(s) != [] ==> |r| < |s|
  {
    s[FirstLen(s)..]
  }

  /** The string a character buffer holds: everything before the first null. */
  function CString(s: Path): (r: Path)
    ensures r <= s && ('\0' !in s ==> r == s)
  {
    if s == [] || s[0] == '\0' then [] else [s[0]] + CString(s[1..])
  }

  lemma {:induction false} FirstLenUnique(s: Path, n: nat)
    requires n <= |s| && '/' !in s[..n] && (n < |s| ==> s[n] == '/')
    ensures FirstLen(s) == n
  {
    if n > 0 {
      assert s[..n][0] == s[0] && s[1..][..n - 1] == s[..n][1..];
      FirstLenUnique(s[1..], n - 1);
    }
  }

  /** The longest suffix of `s` with no slash in it. */
  function AfterSlash(s: Path): (r: Path)
    ensures |r| <= |s| && '/' !in r && s[|s| - |r|..] == r && (|r| < |s| ==> s[|s| - |r| - 1] == '/')
  {
    if s == [] || s[|s| - 1] == '/' then [] else AfterSlash(s[..|s| - 1]) + [s[|s| - 1]]
  }

  lemma {:induction false} AfterSlashUnique(s: Path, n: nat)
    requires n <= |s| && '/' !in s[n..] && (n > 0 ==> s[n - 1] == '/')
    ensures AfterSlash(s) == s[n..]
  {
    var m := |s| - 1;
    if n < |s| {
      assert s[n..][m - n] == s[m] && s[..m][n..] == s[n..m] && s[n..m] + [s[m]] == s[n..];
      AfterSlashUnique(s[..m], n);
    }
  }

  lemma {:induction false} FirstLenBeyond(s: Path, n: nat)
    requires n < |s| && '/' !in s[..n] && s[n] != '/'
    ensures FirstLen(s) > n
  {
    if n > 0 {
      assert s[..n][0] == s[0] && s[1..][..n - 1] == s[..n][1..];
      FirstLenBeyond(s[1..], n - 1);
    }
  }

  /** The last component of `s`. */
  function Final(s: Path): Path { AfterSlash(FixSlash(s)) }

  // ------------------------------------------------------------- components

  /** The nonempty pieces between runs of slashes. */
  function Pieces(s: Path): (ps: seq<Path>)
    decreases |s|
  {
    var t := SkipSlash(s);
    if t == [] then []
    else [First(t)] + Pieces(Rest(t))
  }

  predicate Name(p: Path) { p != [] && '/' !in p }

  function Join(ps: seq<Path>): Path
  {
    if ps == [] then [] else ['/'] + ps[0] + Join(ps[1..])
  }

  /** Pieces takes a path apart: every piece is a name, and joining names with slashes and
      taking the result apart gives them back. */
  lemma {:induction false} PiecesAreNames(s: Path)
    ensures forall p :: p in Pieces(s) ==> Name(p)
    decreases |s|
  {
    var t := SkipSlash(s);
    if t != [] { PiecesAreNames(Rest(t)); }
  }

  lemma {:induction false} PiecesJoin(ps: seq<Path>)
    requires forall p :: p in ps ==> Name(p)
    ensures Pieces(Join(ps)) == ps
  {
    if ps != [] {
      PiecesJoin(ps[1..]);
      assert ps[0] in ps;
      var j := Join(ps[1..]);
      var t := ps[0] + j;
      assert Join(ps) == ['/'] + t && Join(ps)[1..] == t;
      assert t[..|ps[0]|] == ps[0] && t[|ps[0]|..] == j;
      FirstLenUnique(t, |ps[0]|);
      PiecesSlash(Join(ps));
      PiecesName(t);
    }
  }

  lemma PiecesSlash(s: Path)
    requires s != [] && s[0] == '/'
    ensures Pieces(s) == Pieces(s[1..])
  {}

  lemma PiecesName(s: Path)
    requires s != [] && s[0] != '/'
    ensures Pieces(s) == [First(s)] + Pieces(Rest(s))
  {
    assert SkipSlash(s) == s;
  }

  /** Slashes at either end, and how many there are between two names, make no difference. */
  lemma {:induction false} PiecesSkip(s: Path)
    ensures Pieces(SkipSlash(s)) == Pieces(s)
  {
    if s != [] && s[0] == '/' {
      PiecesSkip(s[1..]);
      PiecesSlash(s);
    }
  }

  lemma {:induction false} PiecesApart(a: Path, b: Path)
    requires b != [] ==> b[0] == '/'
    ensures Pieces(a + b) == Pieces(a) + Pieces(b)
    decreases |a|
  {
    hide Pieces;
    if a == [] {
      assert a + b == b;
      PiecesEmpty();
    } else if a[0] == '/' {
      PiecesApart(a[1..], b);
      assert (a + b)[1..] == a[1..] + b;
      PiecesSlash(a);
      PiecesSlash(a + b);
    } else {
      var n := FirstLen(a);
      assert (a + b)[..n] == a[..n];
      FirstLenUnique(a + b, n);
      assert (a + b)[n..] == a[n..] + b;
      assert n > 0;
      PiecesApart(a[n..], b);
      PiecesName(a);
      PiecesName(a + b);
      assert Pieces(a + b) == [a[..n]] + (Pieces(a[n..]) + Pieces(b));
    }
  }

  lemma PiecesEmpty()
    ensures Pieces([]) == []
  {}

  /** pn_setlast leaves the last piece. */
  lemma {:induction false} FinalIsLast(s: Path)
    ensures var ps := Pieces(s); if ps == [] then Final(s) == [] else Final(s) == ps[|ps| - 1]
  {
    hide Pieces;
    PiecesFix(s);
    var t := FixSlash(s);
    var r := AfterSlash(t);
    if t == [] {
      PiecesEmpty();
    } else {
      var pre := t[..|t| - |r|];
      assert t == pre + r && Name(r);
      NameAlone(r, pre, t);
    }
  }

  lemma NameAlone(r: Path, pre: Path, t: Path)
    requires Name(r) && t == pre + r && (pre != [] ==> pre[|pre| - 1] == '/')
    ensures Pieces(t) == Pieces(pre) + [r]
  {
    hide Pieces;
    if pre == [] {
      assert t == r;
      PiecesOfName(r);
      PiecesEmpty();
    } else {
      var q := pre[..|pre| - 1];
      assert pre == q + ['/'];
      assert t == q + (['/'] + r);
      NameAfter(q, r);
    }
  }

  lemma PiecesOfName(r: Path)
    requires Name(r)
    ensures Pieces(r) == [r]
  {
    hide Pieces;
    assert r[0] in r;
    FirstLenUnique(r, |r|);
    PiecesName(r);
    assert Rest(r) == [] && First(r) == r;
    PiecesEmpty();
  }

  lemma NameAfter(q: Path, r: Path)
    requires Name(r)
    ensures Pieces(q + (['/'] + r)) == Pieces(q) + [r] && Pieces(q + ['/']) == Pieces(q)
  {
    hide Pieces;
    PiecesApart(q, ['/'] + r);
    PiecesSlash(['/'] + r);
    assert (['/'] + r)[1..] == r;
    PiecesOfName(r);
    PiecesApart(q, ['/']);
    PiecesSlash(['/']);
    assert ['/'][1..] == [];
    PiecesEmpty();
  }

  lemma {:induction false} PiecesFix(s: Path)
    ensures Pieces(FixSlash(s)) == Pieces(s)
    decreases |s|
  {
    if s != [] && s[|s| - 1] == '/' {
      var n := |s| - 1;
      hide Pieces;
      PiecesFix(s[..n]);
      PiecesApart(s[..n], ['/']);
      assert s == s[..n] + ['/'];
      PiecesSlash(['/']);
      PiecesEmpty();
    }
  }
}

/** fs/pathname.c: the path being looked up, in a buffer of MAXPATHLEN characters. */
module Pathname {
  import opened PathText

  class Pn {
    const buf: array<char>
    var path: int      // pn_path - pn_buf
    var pathlen: int   // pn_pathlen, read as the signed number lookups treat it as

    ghost predicate Valid()
      reads this
    {
      && buf.Length == MAXPATHLEN
      && 0 <= path <= MAXPATHLEN && path + pathlen <= MAXPATHLEN
      && -MAXPATHLEN <= pathlen
    }

    /** With room for the terminating null. */
    ghost predicate Terminable()
      reads this
    {
      Valid() && path < MAXPATHLEN && path + pathlen < MAXPATHLEN
    }

    /** The remaining path, if any, starts a component. */
    ghost predicate AtName()
      requires Valid()
      reads this, buf
    {
      pathlen > 0 ==> path == 0 || buf[path - 1] == '/'
    }

    /** The remaining path; none when the length is not positive. */
    function Text(): (s: Path)
      requires Valid()
      reads this, buf
    {
      if pathlen <= 0 then [] else buf[path..path + pathlen]
    }

    constructor ()
      ensures Terminable() && fresh(buf) && path == 0 && pathlen == 0
    {
      buf := new char[MAXPATHLEN];
      path, pathlen := 0, 0;
    }

    /** pn_set, and pn_get once the buffer is there: room for the null is needed. */
    method Set(s: Path) returns (ok: bool)
      requires Valid()
      modifies this, buf
      ensures Valid() && (ok <==> |CString(s)| < MAXPATHLEN)
      ensures ok ==> Terminable() && path == 0 && pathlen >= 0 && Text() == CString(s)
    {
      path := 0;
      pathlen := 0;
      var t := CString(s);
      if |t| >= MAXPATHLEN {
        return false;
      }
      forall i | 0 <= i < |t| { buf[i] := t[i]; }
      buf[|t|] := '\0';
      pathlen := |t|;
      assert buf[0..pathlen] == t;
      return true;
    }

    /** pn_getsymlink once VOP_READLINK has answered: up to the whole buffer, no null at the end. */
    method Fill(s: Path)
      requires Valid() && |s| <= MAXPATHLEN
      modifies this, buf
      ensures Valid() && path == 0 && pathlen == |s| && Text() == s
    {
      forall i | 0 <= i < |s| { buf[i] := s[i]; }
      path, pathlen := 0, |s|;
      assert buf[0..pathlen] == s;
    }

    /** pn_insert: the link's text in front of what remains. */
    method Insert(sym: Pn) returns (ok: bool)
      requires Terminable() && sym.Valid() && sym.buf != buf && sym.path == 0 && pathlen >= 0 && sym.pathlen >= 0
      modifies this, buf
      ensures Valid() && sym.Valid() && sym.Text() == old(sym.Text())
      ensures ok <==> |old(Text())| + |sym.Text()| < MAXPATHLEN
      ensures ok ==> Terminable() && path == 0 && pathlen >= 0 && Text() == sym.Text() + old(Text())
      ensures !ok ==> Text() == old(Text())
    {
      if pathlen + sym.pathlen >= MAXPATHLEN {
        return false;
      }
      ghost var rest, link := Text(), sym.Text();
      var n := sym.pathlen;
      forall i | 0 <= i < pathlen { buf[n + i] := buf[path + i]; }
      assert buf[n..n + pathlen] == rest;
      InFront(sym, n + pathlen, rest);
      return true;
    }

    /** The end of pn_insert: with the rest of the path in place behind it, the link's text. */
    method InFront(sym: Pn, len: nat, ghost rest: Path)
      requires sym.Valid() && sym.buf != buf && sym.path == 0 && 0 <= sym.pathlen <= len < MAXPATHLEN == buf.Length
      requires buf[sym.pathlen..len] == rest
      modifies this, buf
      ensures Terminable() && sym.Valid() && sym.Text() == old(sym.Text())
      ensures path == 0 && pathlen == len && Text() == sym.Text() + rest
    {
      var n := sym.pathlen;
      ghost var link := sym.Text();
      forall i | 0 <= i < n { buf[i] := sym.buf[i]; }
      assert buf[..n] == link && buf[n..len] == rest;
      pathlen := len;
      buf[pathlen] := '\0';
      path := 0;
      assert buf[..n] == link && buf[n..len] == rest;
      assert buf[..len] == buf[..n] + buf[n..len];
    }

    /** pn_stripcomponent. */
    method StripComponent() returns (ok: bool, component: Path)
      requires Terminable()
      modifies this`path, this`pathlen
      ensures Terminable()
      ensures ok <==> |First(old(Text()))| < MAXNAMELEN
      ensures ok ==> component == First(old(Text())) && Text() == Rest(old(Text()))
      ensures ok ==> path >= |component| && buf[path - |component|..path] == component
      ensures ok && old(pathlen) >= 0 ==> pathlen >= 0
      ensures ok ==> path == old(path) + |component| && pathlen == old(pathlen) - |component|
      ensures !ok ==> Text() == old(Text())
    {
      hide FirstLen;
      var cp, l, n := path, pathlen, MAXNAMELEN - 1;
      component := [];
      ghost var s := Text();
      while l > 0 && buf[cp] != '/'
        invariant 0 <= cp - path == |component| == pathlen - l && n == MAXNAMELEN - 1 - |component| && n >= 0
        invariant l == pathlen || l >= 0
        invariant component == buf[path..cp] && '/' !in component
        invariant |component| <= |s| && component == s[..|component|]
        decreases l
      {
        n := n - 1;
        if n < 0 {
          FirstLenBeyond(s, |component|);
          return false, component;
        }
        component := component + [buf[cp]];
        cp := cp + 1;
        l := l - 1;
      }
      FirstLenUnique(s, |component|);
      path := cp;
      pathlen := l;
      assert s[|component|..] == if l <= 0 then [] else buf[path..path + l];
      return true, component;
    }

    method SkipSlash()
      requires Terminable()
      modifies this`path, this`pathlen
      ensures Terminable() && Text() == PathText.SkipSlash(old(Text()))
      ensures path >= old(path) && path + pathlen == old(path + pathlen)
      ensures old(pathlen) >= 0 ==> pathlen >= 0
      ensures path > old(path) ==> buf[path - 1] == '/'
      ensures pathlen > 0 ==> buf[path] != '/'
      ensures old(pathlen) > 0 && old(buf[path]) == '/' ==> path > 0
    {
      hide PathText.SkipSlash;
      ghost var t := Text();
      while pathlen > 0 && buf[path] == '/'
        invariant Terminable() && path >= old(path) && path + pathlen == old(path + pathlen)
        invariant old(pathlen) >= 0 ==> pathlen >= 0
        invariant t == Text() && PathText.SkipSlash(t) == PathText.SkipSlash(old(Text()))
        invariant path > old(path) ==> buf[path - 1] == '/'
        decreases pathlen
      {
        assert t[1..] == buf[path + 1..path + pathlen];
        SlashSkipped(t);
        t := t[1..];
        path := path + 1;
        pathlen := pathlen - 1;
      }
      NoneSkipped(t);
    }

    /** Back over slashes, not past the start of the buffer: `while (path > buf && *path == '/') --path`. */
    method BackOverSlashes(p: nat) returns (q: nat)
      requires p < buf.Length
      ensures q <= p && (q > 0 ==> buf[q] != '/')
      ensures forall i :: q < i <= p ==> buf[i] == '/'
    {
      q := p;
      while q > 0 && buf[q] == '/'
        invariant q <= p && forall i :: q < i <= p ==> buf[i] == '/'
      {
        q := q - 1;
      }
    }

    method BackToSlash(p: nat) returns (q: nat)
      requires p < buf.Length
      ensures q <= p && (q > 0 ==> buf[q] == '/')
      ensures forall i :: q < i <= p ==> buf[i] != '/'
    {
      q := p;
      while q > 0 && buf[q] != '/'
        invariant q <= p && forall i :: q < i <= p ==> buf[i] != '/'
      {
        q := q - 1;
      }
    }

    /** pn_fixslash. On a path of nothing but slashes, already skipped, the length it leaves
        is zero or less. */
    method FixSlash()
      requires Terminable() && pathlen >= 0 && (pathlen == 0 ==> path > 0)
      requires pathlen > 0 ==> buf[path] != '/'
      modifies this`pathlen, buf
      ensures Terminable() && Text() == PathText.FixSlash(old(Text()))
      ensures forall i :: 0 <= i < path && i < path + pathlen ==> buf[i] == old(buf[i])
    {
      hide PathText.FixSlash;
      ghost var b := buf[..];
      ghost var s := Text();
      var p := BackOverSlashes(path + pathlen - 1);
      if pathlen > 0 {
        assert s == b[path..path + pathlen];
        Trailing(b, path, p, path + pathlen - 1);
      }
      buf[p + 1] := '\0';
      if pathlen > 0 {
        StoreBeyond(b, buf[..], path, p + 1);
      }
      pathlen := p - path + 1;
    }

    /** pn_setlast: back to the last component of what has been gone through. */
    method SetLast()
      requires Terminable() && path + pathlen > 0
      modifies this`path, this`pathlen, buf
      ensures Terminable() && pathlen >= 0 && Text() == Final(old(buf[..path + pathlen]))
    {
      hide Final;
      ghost var b := buf[..];
      var endpath := BackOverSlashes(path + pathlen - 1);
      var p := BackToSlash(endpath);
      LastName(b, p, endpath, path + pathlen - 1);
      if buf[p] == '/' {
        p := p + 1;
      }
      buf[endpath + 1] := '\0';
      StoreBeyond(b, buf[..], p, endpath + 1);
      path, pathlen := p, endpath - p + 1;
    }
  }

  lemma TextBounds(pn: Pn)
    requires pn.Valid()
    ensures |pn.Text()| == if pn.pathlen <= 0 then 0 else pn.pathlen
    ensures pn.pathlen > 0 ==> pn.Text()[0] == pn.buf[pn.path]
  {}

  /** What pn_setlast finds when a component has just been stripped. */
  lemma FinalStripped(b: seq<char>, lo: nat, c: Path)
    requires lo + |c| <= |b| && b[lo..lo + |c|] == c && Name(c) && (lo > 0 ==> b[lo - 1] == '/')
    ensures Final(b[..lo + |c|]) == c
  {
    var s := b[..lo + |c|];
    assert s[lo..] == c && s[|s| - 1] == c[|c| - 1] && c[|c| - 1] in c;
    assert FixSlash(s) == s;
    AfterSlashUnique(s, lo);
  }

  lemma {:induction false} Trailing(b: seq<char>, lo: nat, q: nat, p: nat)
    requires lo <= q <= p < |b| && b[lo] != '/' && (q > 0 ==> b[q] != '/')
    requires forall i :: q < i <= p ==> b[i] == '/'
    ensures FixSlash(b[lo..p + 1]) == b[lo..q + 1]
    decreases p
  {
    if q < p {
      Trailing(b, lo, q, p - 1);
      assert b[lo..p + 1][..p - lo] == b[lo..p];
    }
  }

  /** From the first character on: a buffer of nothing but slashes has no last name. */
  lemma {:induction false} TrailingAll(b: seq<char>, q: nat, p: nat)
    requires q <= p < |b| && (q > 0 ==> b[q] != '/')
    requires forall i :: q < i <= p ==> b[i] == '/'
    ensures FixSlash(b[..p + 1]) == if b[q] == '/' then [] else b[..q + 1]
    decreases p
  {
    if q < p {
      TrailingAll(b, q, p - 1);
      assert b[..p + 1][..p] == b[..p];
    } else if b[q] == '/' {
      assert b[..1][..0] == [];
    }
  }

  lemma LastName(b: seq<char>, p: nat, endpath: nat, end: nat)
    requires p <= endpath <= end < |b| && (endpath > 0 ==> b[endpath] != '/') && (p > 0 ==> b[p] == '/')
    requires forall i :: endpath < i <= end ==> b[i] == '/'
    requires forall i :: p < i <= endpath ==> b[i] != '/'
    ensures var n := if b[p] == '/' then p + 1 else p; Final(b[..end + 1]) == b[n..endpath + 1]
  {
    var n := if b[p] == '/' then p + 1 else p;
    TrailingAll(b, endpath, end);
    if b[endpath] != '/' {
      var s := b[..endpath + 1];
      assert s[n..] == b[n..endpath + 1];
      AfterSlashUnique(s, n);
    }
  }

  lemma SlashSkipped(s: Path)
    requires s != [] && s[0] == '/'
    ensures PathText.SkipSlash(s) == PathText.SkipSlash(s[1..])
  {}

  lemma NoneSkipped(s: Path)
    requires s != [] ==> s[0] != '/'
    ensures PathText.SkipSlash(s) == s
  {}

  lemma StoreBeyond(b: seq<char>, c: seq<char>, p: nat, q: nat)
    requires p <= q < |b| && c == b[q := '\0']
    ensures c[p..q] == b[p..q]
  {}
}
