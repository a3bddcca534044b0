/** Canonical line editing as an editor of a flat text with two flags. */
module LineSpec {
  import opened Common

  const MAX_CANON := 256

  const BACKSLASH: Byte := 92
  const NEWLINE: Byte := 10
  const BLANK: Byte := 32
  const TAB: Byte := 9

  /** The characters and flags of the terminal modes that matter here; `xmap` is imaptab, what
      a backslash and the character stand for in XCASE mode, 0 when nothing. */
  datatype Modes = Modes(erase: Byte, werase: Byte, kill: Byte, eof: Byte, eol: Byte, eol2: Byte, lnext: Byte, reprint: Byte,
                         iexten: bool, xcase: bool, imaxbel: bool, xmap: Byte -> Byte)

  /** The line being typed, TS_QUOT and TS_SLNCH, and the lines sent up the stream. */
  datatype Editor = Editor(text: seq<Byte>, quot: bool, slnch: bool, sent: seq<seq<Byte>>)

  predicate White(c: Byte) { c == BLANK || c == TAB }

  function Chop(s: seq<Byte>): seq<Byte>
  {
    if s == [] then [] else s[..|s| - 1]
  }

  function ChopWhite(s: seq<Byte>): (r: seq<Byte>)
    ensures r <= s && (r != [] ==> !White(r[|r| - 1]))
    ensures forall i :: |r| <= i < |s| ==> White(s[i])
  {
    if s != [] && White(s[|s| - 1]) then ChopWhite(Chop(s)) else s
  }

  function ChopWord(s: seq<Byte>): (r: seq<Byte>)
    ensures r <= s && (r != [] ==> White(r[|r| - 1]))
    ensures forall i :: |r| <= i < |s| ==> !White(s[i])
  {
    if s != [] && !White(s[|s| - 1]) then ChopWord(Chop(s)) else s
  }

  /** What a word erase leaves. */
  function Unworded(s: seq<Byte>): seq<Byte>
  {
    ChopWord(ChopWhite(s))
  }

  function Send(e: Editor): Editor
  {
    e.(text := [], sent := e.sent + [e.text])
  }

  predicate Ends(m: Modes, c: Byte)
  {
    c == NEWLINE || (c != 0 && (c == m.eol || c == m.eol2))
  }

  /** A character added to the line; the line goes up when the character ends it. */
  function Put(m: Modes, e: Editor, c: Byte): Editor
  {
    var e1 := e.(text := e.text + [c]);
    if !e.slnch && Ends(m, c) then Send(e1) else e1.(slnch := false, quot := c == BACKSLASH)
  }

  /** ... unless the line is over its limit: then the character, or the line, is dropped. */
  function Store(m: Modes, e: Editor, c: Byte): Editor
  {
    if |e.text| > MAX_CANON then
      if m.imaxbel then e else Put(m, e.(text := [], slnch := false), c)
    else Put(m, e, c)
  }

  /** A character typed. */
  function Type(m: Modes, e: Editor, c: Byte): Editor
  {
    if e.slnch then Store(m, e, c)
    else if c == 0 then Store(m, e.(quot := false), c)
    else if m.iexten && c == m.lnext then e.(slnch := true)
    else if c == m.erase then
      if e.quot then Store(m, e.(text := Chop(e.text)), c) else e.(text := Chop(e.text))
    else if m.iexten && c == m.werase then e.(text := Unworded(e.text))
    else if c == m.kill then
      if e.quot then Store(m, e.(text := Chop(e.text)), c) else e.(text := [], quot := false, slnch := false)
    else if m.iexten && c == m.reprint then e
    else if e.quot then
      if c == m.eof then Store(m, e.(text := Chop(e.text), quot := false), c)
      else if m.xcase && m.xmap(c) != 0 then Store(m, e.(text := Chop(e.text), quot := false), m.xmap(c))
      else Store(m, e.(quot := false), c)
    else if c == m.eof then Send(e)
    else Store(m, e, c)
  }

  function TypeAll(m: Modes, e: Editor, cs: seq<Byte>): Editor
  {
    if cs == [] then e else Type(m, TypeAll(m, e, cs[..|cs| - 1]), cs[|cs| - 1])
  }

  // ------------------------------------------------------- what it guarantees

  /** A line, also one sent, is never longer than MAX_CANON + 1 characters. */
  predicate Bounded(e: Editor)
  {
    |e.text| <= MAX_CANON + 1 && forall k :: 0 <= k < |e.sent| ==> |e.sent[k]| <= MAX_CANON + 1
  }

  lemma TypeBounded(m: Modes, e: Editor, c: Byte)
    requires Bounded(e)
    ensures Bounded(Type(m, e, c))
  {}

  lemma {:induction false} RunBounded(m: Modes, e: Editor, cs: seq<Byte>)
    requires Bounded(e)
    ensures Bounded(TypeAll(m, e, cs))
  {
    if cs != [] {
      RunBounded(m, e, cs[..|cs| - 1]);
      TypeBounded(m, TypeAll(m, e, cs[..|cs| - 1]), cs[|cs| - 1]);
    }
  }

  /** A character without any meaning of its own. */
  predicate Plain(m: Modes, c: Byte)
  {
    && c != 0 && c != BACKSLASH && !Ends(m, c)
    && c != m.erase && c != m.kill && c != m.eof
    && (m.iexten ==> c != m.lnext && c != m.werase && c != m.reprint)
  }

  predicate Idle(e: Editor) { !e.quot && !e.slnch }

  /** Plain characters are just text. */
  lemma {:induction false} PlainIsText(m: Modes, e: Editor, cs: seq<Byte>)
    requires Idle(e) && (forall k :: 0 <= k < |cs| ==> Plain(m, cs[k])) && |e.text| + |cs| <= MAX_CANON + 1
    ensures TypeAll(m, e, cs) == e.(text := e.text + cs)
  {
    if cs != [] {
      var n := |cs| - 1;
      PlainIsText(m, e, cs[..n]);
      assert e.text + cs[..n] + [cs[n]] == e.text + cs;
    } else {
      assert e.text + cs == e.text;
    }
  }

  /** A line of them is sent as typed. */
  lemma PlainLineSent(m: Modes, e: Editor, cs: seq<Byte>)
    requires Idle(e) && e.text == [] && (forall k :: 0 <= k < |cs| ==> Plain(m, cs[k])) && |cs| <= MAX_CANON
    requires m.erase != NEWLINE && m.kill != NEWLINE && m.eof != NEWLINE
    requires m.iexten ==> m.lnext != NEWLINE && m.werase != NEWLINE && m.reprint != NEWLINE
    ensures TypeAll(m, e, cs + [NEWLINE]) == e.(sent := e.sent + [cs + [NEWLINE]])
  {
    PlainIsText(m, e, cs);
    assert (cs + [NEWLINE])[..|cs|] == cs && e.text + cs == cs;
  }

  /** Erase takes back the last character typed; kill takes back all of the line. */
  lemma EraseTakesBack(m: Modes, e: Editor, c: Byte)
    requires Idle(e) && Plain(m, c) && |e.text| <= MAX_CANON && m.erase != 0 && !(m.iexten && m.erase == m.lnext)
    ensures Type(m, Type(m, e, c), m.erase) == e
  {
    assert (e.text + [c])[..|e.text|] == e.text;
  }

  lemma KillTakesBack(m: Modes, e: Editor, cs: seq<Byte>)
    requires Idle(e) && (forall k :: 0 <= k < |cs| ==> Plain(m, cs[k])) && |e.text| + |cs| <= MAX_CANON + 1
    requires m.kill != 0 && m.kill != m.erase && !(m.iexten && (m.kill == m.lnext || m.kill == m.werase))
    ensures TypeAll(m, e, cs + [m.kill]) == e.(text := [])
  {
    PlainIsText(m, e, cs);
    assert (cs + [m.kill])[..|cs|] == cs;
  }

  /** A backslash makes the erase character ordinary and is replaced by it; the literal-next
      character makes any character ordinary and is not kept. */
  lemma BackslashErase(m: Modes, e: Editor)
    requires Idle(e) && |e.text| <= MAX_CANON && m.erase != 0 && m.erase != BACKSLASH && !Ends(m, m.erase)
    requires !(m.iexten && m.erase == m.lnext)
    requires m.kill != BACKSLASH && m.eof != BACKSLASH && !Ends(m, BACKSLASH)
    requires m.iexten ==> m.lnext != BACKSLASH && m.werase != BACKSLASH && m.reprint != BACKSLASH
    ensures Type(m, Type(m, e, BACKSLASH), m.erase) == e.(text := e.text + [m.erase])
  {
    assert (e.text + [BACKSLASH])[..|e.text|] == e.text;
  }

  lemma LiteralNext(m: Modes, e: Editor, c: Byte)
    requires Idle(e) && |e.text| <= MAX_CANON && m.iexten && m.lnext != 0
    ensures Type(m, Type(m, e, m.lnext), c) == e.(text := e.text + [c], quot := c == BACKSLASH)
  {}

  /** A word erase leaves the longest start of the line that is empty or ends in white space
      and is followed by one word and white space at most. */
  lemma WordErased(s: seq<Byte>)
    ensures var r := Unworded(s);
            && r <= s && (r != [] ==> White(r[|r| - 1]))
            && (s != [] ==> |r| < |s|)
            && exists w :: WordThenWhite(s, |r|, w)
  {
    var t := ChopWhite(s);
    var r := ChopWord(t);
    assert forall i :: |r| <= i < |t| ==> s[i] == t[i];
    assert WordThenWhite(s, |r|, |t|);
  }

  predicate WordThenWhite(s: seq<Byte>, n: nat, w: nat)
  {
    n <= w <= |s| && (forall i :: n <= i < w ==> !White(s[i])) && (forall i :: w <= i < |s| ==> White(s[i]))
  }

  /** TS_QUOT means that the last character is a backslash, but for three cases. One: a word erase
      takes the backslash and leaves the flag. The erase or kill character typed next is then stored
      in place of whatever comes last. */
  predicate Honest(e: Editor)
  {
    e.quot ==> e.text != [] && e.text[|e.text| - 1] == BACKSLASH
  }

  predicate WordErases(m: Modes, e: Editor, c: Byte)
  {
    !e.slnch && c != 0 && m.iexten && c == m.werase && c != m.lnext && c != m.erase
  }

  /** Two: a line over its limit is dropped for a literal character that ends lines. */
  predicate EndsAnew(m: Modes, e: Editor, c: Byte)
  {
    e.slnch && |e.text| > MAX_CANON && !m.imaxbel && Ends(m, c)
  }

  /** Three: an erase or kill character behind a backslash takes its place, and sends the line
      because it also ends lines. */
  predicate QuotedEndsLine(m: Modes, e: Editor, c: Byte)
  {
    && !e.slnch && c != 0 && Ends(m, c) && !(m.iexten && c == m.lnext)
    && (c == m.erase || (c == m.kill && !(m.iexten && c == m.werase)))
  }

  lemma QuoteHonestIff(m: Modes, e: Editor, c: Byte)
    requires Honest(e) && Bounded(e)
    ensures Honest(Type(m, e, c)) <==>
              !(e.quot && (WordErases(m, e, c) || EndsAnew(m, e, c) || QuotedEndsLine(m, e, c)))
  {
    if WordErases(m, e, c) {
      WordErased(e.text);
    }
  }

  lemma OrdinaryTyped(m: Modes, e: Editor, c: Byte)
    requires Idle(e) && |e.text| <= MAX_CANON && Plain(m, c)
    ensures Type(m, e, c) == e.(text := e.text + [c])
  {}

  lemma BackslashTyped(m: Modes, e: Editor)
    requires Idle(e) && |e.text| <= MAX_CANON && !Ends(m, BACKSLASH)
    requires BACKSLASH !in {m.erase, m.kill, m.eof, m.lnext, m.werase, m.reprint}
    ensures Type(m, e, BACKSLASH) == e.(text := e.text + [BACKSLASH], quot := true)
  {}

  lemma WordEraseStale(m: Modes, e: Editor, x: Byte)
    requires m.iexten && m.werase !in {0, m.lnext, m.erase} && m.erase !in {0, m.lnext} && !Ends(m, m.erase)
    requires !e.slnch && e.quot && e.text == [x, BLANK, BACKSLASH] && m.erase != BACKSLASH
    ensures Type(m, Type(m, e, m.werase), m.erase).text == [x, m.erase]
  {
    assert ChopWhite(e.text) == e.text;
    assert Chop(e.text) == [x, BLANK] && ChopWord([x, BLANK]) == [x, BLANK];
    var e1 := e.(text := [x, BLANK]);
    assert Type(m, e, m.werase) == e1;
    assert Chop(e1.text) == [x];
  }

  /** With any usual setting of the characters: x, blank, backslash, word erase, erase leaves x and
      the erase character, and the blank is gone. */
  lemma StaleQuoteExample(m: Modes, x: Byte)
    requires m.iexten && Plain(m, x) && Plain(m, BLANK) && !Ends(m, BACKSLASH) && !Ends(m, m.erase)
    requires BACKSLASH !in {m.erase, m.kill, m.eof, m.lnext, m.werase, m.reprint}
    requires m.werase !in {0, m.lnext, m.erase} && m.erase !in {0, m.lnext}
    ensures var e0 := Editor([], false, false, []);
            var typed := Type(m, Type(m, Type(m, Type(m, Type(m, e0, x), BLANK), BACKSLASH), m.werase), m.erase);
            typed.text == [x, m.erase]
  {
    hide Type, Plain, Ends;
    var e0 := Editor([], false, false, []);
    OrdinaryTyped(m, e0, x);
    var e1 := e0.(text := [x]);
    assert e0.text + [x] == e1.text;
    OrdinaryTyped(m, e1, BLANK);
    var e2 := e0.(text := [x, BLANK]);
    assert e1.text + [BLANK] == e2.text;
    BackslashTyped(m, e2);
    var e3 := e2.(text := [x, BLANK, BACKSLASH], quot := true);
    assert e2.text + [BACKSLASH] == e3.text;
    WordEraseStale(m, e3, x);
  }
}

/** What each keystroke does, for every setting in which a character has one meaning. */
module LineLaws {
  import opened Common
  import opened LineSpec

  /** The editing characters are on, differ from each other, are no backslash and end no lines. */
  predicate Usual(m: Modes)
  {
    && m.iexten
    && Distinct([m.erase, m.werase, m.kill, m.eof, m.lnext, m.reprint])
    && (forall c :: c in [m.erase, m.werase, m.kill, m.eof, m.lnext, m.reprint] ==> c != 0 && c != BACKSLASH && !Ends(m, c))
    && !Ends(m, BACKSLASH)
  }

  predicate Special(m: Modes, c: Byte)
  {
    c in [m.erase, m.werase, m.kill, m.eof, m.lnext, m.reprint]
  }

  lemma Apart(m: Modes)
    requires Usual(m)
    ensures m.erase != m.werase && m.erase != m.kill && m.erase != m.eof && m.erase != m.lnext && m.erase != m.reprint
    ensures m.werase != m.kill && m.werase != m.eof && m.werase != m.lnext && m.werase != m.reprint
    ensures m.kill != m.eof && m.kill != m.lnext && m.kill != m.reprint
    ensures m.eof != m.lnext && m.eof != m.reprint && m.lnext != m.reprint
    ensures forall c :: Special(m, c) ==> c != 0 && c != BACKSLASH && !Ends(m, c)
  {
    var s := [m.erase, m.werase, m.kill, m.eof, m.lnext, m.reprint];
    assert s[0] != s[1] && s[0] != s[2] && s[0] != s[3] && s[0] != s[4] && s[0] != s[5];
    assert s[1] != s[2] && s[1] != s[3] && s[1] != s[4] && s[1] != s[5];
    assert s[2] != s[3] && s[2] != s[4] && s[2] != s[5] && s[3] != s[4] && s[3] != s[5] && s[4] != s[5];
  }

  /** The line is what is typed, `e` being idle. */
  predicate Start(e: Editor)
  {
    Idle(e) && |e.text| <= MAX_CANON
  }

  /** End of file sends the line without a character of its own, an empty one too; an end-of-line
      character is sent with the line it ends. Either way an empty line begins. */
  lemma EofSends(m: Modes, e: Editor)
    requires Usual(m) && Idle(e)
    ensures Type(m, e, m.eof) == e.(text := [], sent := e.sent + [e.text])
  {
    Apart(m);
  }

  lemma EndSends(m: Modes, e: Editor, c: Byte)
    requires Usual(m) && Start(e) && Ends(m, c)
    ensures Type(m, e, c) == e.(text := [], sent := e.sent + [e.text + [c]])
  {
    Apart(m);
  }

  /** Erase takes the last character, kill all of them, and a word erase the last word with the white
      space behind it; on an empty line they do nothing. Reprint changes nothing. */
  lemma ErasersErase(m: Modes, e: Editor)
    requires Usual(m) && Idle(e)
    ensures Type(m, e, m.erase) == e.(text := if e.text == [] then [] else e.text[..|e.text| - 1])
    ensures Type(m, e, m.kill) == e.(text := [])
    ensures Type(m, e, m.reprint) == e
    ensures var r := Type(m, e, m.werase);
            && r == e.(text := r.text) && r.text <= e.text && (r.text != [] ==> White(r.text[|r.text| - 1]))
            && (e.text != [] ==> |r.text| < |e.text|)
            && exists w :: WordThenWhite(e.text, |r.text|, w)
  {
    Apart(m);
    WordErased(e.text);
  }

  /** As many erases as characters, or more, leave nothing. */
  lemma {:induction false} ErasesEmpty(m: Modes, e: Editor, k: nat)
    requires Usual(m) && Idle(e)
    ensures TypeAll(m, e, seq(k, _ => m.erase)) == e.(text := e.text[..if k < |e.text| then |e.text| - k else 0])
  {
    var cs := seq(k, _ => m.erase);
    if k > 0 {
      assert cs[..k - 1] == seq(k - 1, _ => m.erase);
      ErasesEmpty(m, e, k - 1);
      ErasersErase(m, TypeAll(m, e, cs[..k - 1]));
    } else {
      assert e.text[..|e.text|] == e.text;
    }
  }

  /** Behind a backslash the erase, kill and end-of-file characters are text and take its place; a word
      erase, a reprint and a literal-next character keep their meaning. */
  lemma BackslashQuotes(m: Modes, e: Editor, c: Byte)
    requires Usual(m) && Start(e) && (c == m.erase || c == m.kill || c == m.eof)
    ensures Type(m, Type(m, e, BACKSLASH), c) == e.(text := e.text + [c])
  {
    Apart(m);
    assert (e.text + [BACKSLASH])[..|e.text|] == e.text;
  }

  lemma BackslashBefore(m: Modes, e: Editor)
    requires Usual(m) && Start(e)
    ensures var q := Type(m, e, BACKSLASH);
            && q == e.(text := e.text + [BACKSLASH], quot := true)
            && Type(m, q, m.reprint) == q && Type(m, q, m.lnext) == q.(slnch := true)
            && Type(m, q, m.werase).text == Unworded(q.text)
  {
    Apart(m);
  }

  /** With any other character a backslash stays, unless XCASE gives the two a meaning. */
  lemma BackslashStays(m: Modes, e: Editor, c: Byte)
    requires Usual(m) && Idle(e) && |e.text| < MAX_CANON && !Special(m, c) && !Ends(m, c)
    ensures var r := Type(m, Type(m, e, BACKSLASH), c);
            if m.xcase && c != 0 && m.xmap(c) != 0 then
              !Ends(m, m.xmap(c)) ==> r == e.(text := e.text + [m.xmap(c)], quot := m.xmap(c) == BACKSLASH)
            else r == e.(text := e.text + [BACKSLASH, c], quot := c == BACKSLASH)
  {
    Apart(m);
    assert (e.text + [BACKSLASH])[..|e.text|] == e.text;
    assert e.text + [BACKSLASH] + [c] == e.text + [BACKSLASH, c];
  }

  /** Any character but the editing characters and those that end lines is text. */
  lemma OthersAreText(m: Modes, e: Editor, c: Byte)
    requires Usual(m) && Start(e) && !Special(m, c) && !Ends(m, c)
    ensures Type(m, e, c) == e.(text := e.text + [c], quot := c == BACKSLASH)
  {
    Apart(m);
  }

  /** A line that is full takes no more text: with IMAXBEL the character is lost, without it the line. */
  lemma FullLine(m: Modes, e: Editor, c: Byte)
    requires Usual(m) && Idle(e) && |e.text| > MAX_CANON && !Special(m, c) && !Ends(m, c)
    ensures Type(m, e, c) == if m.imaxbel then e else e.(text := [c], quot := c == BACKSLASH)
  {
    Apart(m);
  }

  /** Nor can it be ended by a character that would be sent with it. */
  lemma FullLineEnds(m: Modes, e: Editor, c: Byte)
    requires Usual(m) && Idle(e) && |e.text| > MAX_CANON && Ends(m, c)
    ensures Type(m, e, c) == if m.imaxbel then e else e.(text := [], sent := e.sent + [[c]])
  {
    Apart(m);
    assert [] + [c] == [c];
  }
}

/** The line as a chain of message blocks (io/ldterm.c, single-byte mode). */
module LineEdit {
  import opened Common
  import opened LineSpec

  /** The bytes of a chain of blocks. */
  function Joined(blocks: seq<seq<Byte>>): seq<Byte>
  {
    if blocks == [] then [] else Joined(blocks[..|blocks| - 1]) + blocks[|blocks| - 1]
  }

  lemma JoinedLast(blocks: seq<seq<Byte>>, b: seq<Byte>)
    ensures Joined(blocks + [b]) == Joined(blocks) + b
  {
    assert (blocks + [b])[..|blocks|] == blocks;
  }

  lemma JoinedOne(b: seq<Byte>)
    ensures Joined([b]) == b && Joined([]) == []
  {
    assert [b] == [] + [b];
    JoinedLast([], b);
  }

  /** The lines in messages sent up the stream. */
  function Lines(up: seq<seq<seq<Byte>>>): (r: seq<seq<Byte>>)
    ensures |r| == |up|
  {
    seq(|up|, i requires 0 <= i < |up| => Joined(up[i]))
  }

  class LineDiscipline {
    const modes: Modes
    const size: nat                // room in a block
    var blocks: seq<seq<Byte>>     // t_message .. t_endmsg, what is between b_rptr and b_wptr
    var msglen: int                // t_msglen
    var quot: bool                 // TS_QUOT, TS_SLNCH
    var slnch: bool
    var up: seq<seq<seq<Byte>>>    // messages passed up the stream

    /** There is a message being built, only its first block may be empty, and t_msglen is its
        length. */
    ghost predicate Valid()
      reads this
    {
      && size > 0 && blocks != []
      && (forall i :: 0 < i < |blocks| ==> blocks[i] != [])
      && (forall i :: 0 <= i < |blocks| ==> |blocks[i]| <= size)
      && msglen == |Joined(blocks)|
    }

    ghost function Flat(): Editor
      reads this
    {
      Editor(Joined(blocks), quot, slnch, Lines(up))
    }

    constructor (modes: Modes, size: nat)
      requires size > 0
      ensures Valid() && this.modes == modes && Flat() == Editor([], false, false, [])
    {
      this.modes, this.size := modes, size;
      blocks, msglen, quot, slnch, up := [[]], 0, false, false, [];
      new;
      JoinedOne([]);
    }

    /** ldterm_unget: the last character of the last block; -1 when that is empty. It may leave
        the last block empty, until ldterm_trim. */
    method Unget() returns (c: int)
      requires Valid()
      modifies this`blocks, this`msglen
      ensures c == -1 <==> old(Joined(blocks)) == []
      ensures c == -1 ==> blocks == old(blocks) && msglen == old(msglen)
      ensures c != -1 ==>
                var n := |old(blocks)| - 1;
                var last := old(blocks)[n];
                last != [] && c == last[|last| - 1] && blocks == old(blocks)[n := last[..|last| - 1]] && msglen == old(msglen) - 1
    {
      var n := |blocks| - 1;
      var last := blocks[n];
      assert blocks == blocks[..n] + [last];
      JoinedLast(blocks[..n], last);
      if last == [] {
        assert blocks == [[]];
        return -1;
      }
      c := last[|last| - 1];
      msglen := msglen - 1;
      blocks := blocks[n := last[..|last| - 1]];
    }

    /** ldterm_trim: a last block left empty goes, unless it is the first; the walk from the
        first block finds the one before it. */
    method Trim()
      requires blocks != []
      modifies this`blocks
      ensures blocks == if old(blocks)[|old(blocks)| - 1] == [] && |old(blocks)| > 1
                        then old(blocks)[..|old(blocks)| - 1] else old(blocks)
    {
      var last := |blocks| - 1;
      if blocks[last] == [] {
        var bp := 0;
        if bp != last {
          while bp + 1 != last
            invariant bp < last
            decreases last - bp
            modifies {}
          {
            bp := bp + 1;
          }
          blocks := blocks[..bp + 1];
        }
      }
    }

    /** One character off the end: ldterm_unget and ldterm_trim. */
    method TakeLast() returns (c: int)
      requires Valid()
      modifies this`blocks, this`msglen
      ensures Valid() && Joined(blocks) == Chop(old(Joined(blocks)))
      ensures if old(Joined(blocks)) == [] then c == -1
              else c == old(Joined(blocks))[|old(Joined(blocks))| - 1]
    {
      ghost var was := blocks;
      c := Unget();
      if c != -1 {
        Trimmed(was, blocks);
        Trim();
      }
    }

    /** ldterm_erase */
    method Erase()
      requires Valid()
      modifies this`blocks, this`msglen
      ensures Valid() && Joined(blocks) == Chop(old(Joined(blocks)))
    {
      var c := TakeLast();
    }

    /** ldterm_werase: white space, then a word; the character that stops it is put back, which
        is why it must not have been trimmed. */
    method Werase()
      requires Valid()
      modifies this`blocks, this`msglen
      ensures Valid() && Joined(blocks) == Unworded(old(Joined(blocks)))
    {
      hide ChopWhite, ChopWord, Joined;
      ghost var text, at := Joined(blocks), blocks;
      var c := Unget();
      while c == BLANK as int || c == TAB as int
        invariant Pulled(at, c) && ChopWhite(Joined(at)) == ChopWhite(text)
        decreases |Joined(at)|
      {
        LastGot(at, blocks, c);
        c, at := Again(c, at);
      }
      LastGot(at, blocks, c);
      ghost var rest := Joined(at);
      while c != -1 && c != BLANK as int && c != TAB as int
        invariant Pulled(at, c) && ChopWord(Joined(at)) == ChopWord(rest)
        decreases |Joined(at)|
      {
        LastGot(at, blocks, c);
        c, at := Again(c, at);
      }
      LastGot(at, blocks, c);
      if c != -1 {
        PutBack(c, at);
      }
    }

    /** ldterm_unget has answered c, on a sound chain `at`. */
    ghost predicate Pulled(at: seq<seq<Byte>>, c: int)
      reads this
    {
      Ungot(at, blocks, c) && Sound(at, size) && msglen == |Joined(at)| - (if c == -1 then 0 else 1)
    }

    /** ldterm_trim and the next ldterm_unget. */
    method Again(c0: int, ghost at0: seq<seq<Byte>>) returns (c: int, ghost at: seq<seq<Byte>>)
      requires Pulled(at0, c0) && c0 != -1
      modifies this`blocks, this`msglen
      ensures Pulled(at, c) && Joined(at) == Chop(Joined(at0)) && |Joined(at)| < |Joined(at0)|
    {
      Trimmed(at0, blocks);
      Trim();
      SoundValid(at0, blocks, size);
      at := blocks;
      c := Unget();
    }

    /** "We removed one too many characters; put the last one back": b_wptr++. */
    method PutBack(c: Byte, ghost at: seq<seq<Byte>>)
      requires Ungot(at, blocks, c) && Sound(at, size) && msglen == |Joined(at)| - 1
      modifies this`blocks, this`msglen
      ensures Valid() && blocks == at
    {
      var n := |blocks| - 1;
      blocks := blocks[n := blocks[n] + [c]];
      msglen := msglen + 1;
      assert at[n] == at[n][..|at[n]| - 1] + [c];
      assert blocks == at;
    }

    /** ldterm_kill */
    method Kill()
      requires Valid()
      modifies this`blocks, this`msglen, this`quot, this`slnch
      ensures Valid() && Joined(blocks) == [] && !quot && !slnch
    {
      var c := TakeLast();
      while c != -1
        invariant Valid() && (c == -1 ==> Joined(blocks) == [])
        decreases |Joined(blocks)|, c != -1
      {
        c := TakeLast();
      }
      quot, slnch := false, false;
    }

    /** newmsg, storage being there: a message to go on with, and the line as it was. */
    method NewMsg()
      requires size > 0
      modifies this`blocks
      ensures blocks != [] && Joined(blocks) == old(Joined(blocks))
      ensures old(blocks) == [] ==> |blocks| == 1
      ensures old(blocks) != [] ==> blocks == old(blocks)
    {
      if blocks == [] {
        blocks := [[]];
        JoinedOne([]);
      }
    }

    /** ldterm_msg_upstream, and the new message begun after it. */
    method MsgUpstream()
      requires Valid()
      modifies this`blocks, this`msglen, this`up
      ensures Valid() && Flat() == Send(old(Flat()))
    {
      ghost var lines := Lines(up);
      up := up + [blocks];
      blocks := [];
      msglen := 0;
      NewMsg();
      JoinedOne(blocks[0]);
      assert blocks == [blocks[0]];
      assert Lines(up) == lines + [old(Joined(blocks))];
    }

    /** ldterm_docanon */
    method Docanon(c0: Byte)
      requires Valid()
      modifies this
      ensures Valid() && Flat() == Type(modes, old(Flat()), c0)
    {
      hide Store, Unworded;
      var c := c0;
      if !slnch {
        if c == 0 {
          quot := false;
        } else if modes.iexten && c == modes.lnext {
          slnch := true;
          return;
        } else if c == modes.erase {
          if quot {
            Erase();
          } else {
            Erase();
            return;
          }
        } else if modes.iexten && c == modes.werase {
          Werase();
          return;
        } else if c == modes.kill {
          if quot {
            Erase();
          } else {
            Kill();
            return;
          }
        } else if modes.iexten && c == modes.reprint {
          return;
        } else if quot {
          quot := false;
          if c == modes.eof {
            Erase();
          } else if modes.xcase && modes.xmap(c) != 0 {
            Erase();
            c := modes.xmap(c);
          }
        } else if c == modes.eof {
          MsgUpstream();
          return;
        }
      }
      Escaped(c);
    }

    /** ldterm_docanon from `escaped`. */
    method Escaped(c: Byte)
      requires Valid()
      modifies this
      ensures Valid() && Flat() == Store(modes, old(Flat()), c)
    {
      hide Joined, Lines;
      if msglen > (MAX_CANON + 1) - 1 { // t_maxeuc is 1
        if modes.imaxbel {
          return;
        }
        blocks := [];
        msglen := 0;
        slnch := false;
        NewMsg();
        JoinedOne(blocks[0]);
        assert blocks == [blocks[0]];
      }
      AddByte(c);
      if !slnch && (c == NEWLINE || (c != 0 && (c == modes.eol || c == modes.eol2))) {
        MsgUpstream();
      } else {
        slnch, quot := false, false;
        if c == BACKSLASH {
          quot := true;
        }
      }
    }

    /** "Add the character to the current line", in a new block when the last is full. */
    method AddByte(c: Byte)
      requires Valid()
      modifies this`blocks, this`msglen
      ensures Valid() && Joined(blocks) == old(Joined(blocks)) + [c]
    {
      var n := |blocks| - 1;
      ghost var was := blocks;
      assert was == was[..n] + [was[n]];
      JoinedLast(was[..n], was[n]);
      if |blocks[n]| >= size {
        blocks := blocks + [[c]];
        JoinedLast(was, [c]);
      } else {
        blocks := blocks[n := blocks[n] + [c]];
        assert blocks == was[..n] + [was[n] + [c]];
        JoinedLast(was[..n], was[n] + [c]);
      }
      msglen := msglen + 1;
    }
  }

  /** Blocks as they should be. */
  ghost predicate Sound(blocks: seq<seq<Byte>>, size: nat)
  {
    && size > 0 && blocks != []
    && (forall i :: 0 < i < |blocks| ==> blocks[i] != [])
    && (forall i :: 0 <= i < |blocks| ==> |blocks[i]| <= size)
  }

  /** `blocks` is `at` after ldterm_unget has answered c. */
  ghost predicate Ungot(at: seq<seq<Byte>>, blocks: seq<seq<Byte>>, c: int)
  {
    && at != []
    && (c == -1 <==> Joined(at) == [])
    && if c == -1 then blocks == at
       else
         var n := |at| - 1;
         at[n] != [] && c == at[n][|at[n]| - 1] && blocks == at[n := at[n][..|at[n]| - 1]]
  }

  /** ldterm_trim after ldterm_unget. */
  lemma Trimmed(at: seq<seq<Byte>>, blocks: seq<seq<Byte>>)
    requires at != [] && var n := |at| - 1; at[n] != [] && blocks == at[n := at[n][..|at[n]| - 1]]
    ensures var n := |at| - 1;
            var t := if blocks[n] == [] && n > 0 then blocks[..n] else blocks;
            && Joined(t) == Chop(Joined(at)) && Joined(at) != []
            && Joined(at)[|Joined(at)| - 1] == at[n][|at[n]| - 1]
  {
    var n := |at| - 1;
    assert at == at[..n] + [at[n]] && blocks == at[..n] + [blocks[n]];
    JoinedLast(at[..n], at[n]);
    JoinedLast(at[..n], blocks[n]);
    if blocks[n] == [] { assert blocks[..n] == at[..n] && Joined(at[..n]) + [] == Joined(at[..n]); }
  }

  lemma SoundValid(at: seq<seq<Byte>>, blocks: seq<seq<Byte>>, size: nat)
    requires Sound(at, size)
    requires var n := |at| - 1;
             var u := at[n := Chop(at[n])];
             blocks == if u[n] == [] && n > 0 then u[..n] else u
    ensures Sound(blocks, size)
  {}

  /** What the character got says about the text. */
  lemma LastGot(at: seq<seq<Byte>>, blocks: seq<seq<Byte>>, c: int)
    requires Ungot(at, blocks, c)
    ensures c == -1 ==> blocks == at
    ensures var s := Joined(at);
            && (c == -1 <==> s == [])
            && (c != -1 ==> c == s[|s| - 1])
            && ChopWhite(s) == (if c == BLANK as int || c == TAB as int then ChopWhite(Chop(s)) else s)
            && ChopWord(s) == (if c == -1 || c == BLANK as int || c == TAB as int then s else ChopWord(Chop(s)))
  {
    var n := |at| - 1;
    assert at == at[..n] + [at[n]];
    JoinedLast(at[..n], at[n]);
  }
}
