/**
 The rest of the finished file (src/core/archive.cc, src/core/segment.cc, src/core/section.cc): header, load commands,
 section structures and link-edit tables still stand where they were put when everything has been written.
 */
module FileHeads {
  import opened Wrappers
  import opened Images
  import opened Blobs
  import opened Layout
  import opened Emit
  import opened EmitArchive

  // ----- where they are put -----

  /** Where command `n` starts: behind the header and the commands before it. */
  function HeadAt<R>(header: bytes, cs: seq<Command<R>>, n: nat): nat
    requires AllValid(cs) && n <= |cs|
  {
    |header| + CommandsSize(cs[..n])
  }

  function Tables<R>(cs: seq<Command<R>>): seq<Chunk>
  {
    if cs == [] then [] else (if cs[0].Other? then cs[0].tables else []) + Tables(cs[1..])
  }

  predicate Meet(a: Chunk, b: Chunk)
  {
    a.off < b.off + |b.bs| && b.off < a.off + |a.bs|
  }

  // ----- no two of these writes meet -----

  ghost predicate PutsApart<R>(sts: seq<Step<R>>)
  {
    forall n, m :: 0 <= n < m < |sts| && sts[n].Put? && sts[m].Put? ==> !Meet(sts[n].c, sts[m].c)
  }

  /** Part of the headers between `lo` and `hi`, or one of the tables. */
  ghost predicate HeadOr<R>(st: Step<R>, lo: nat, hi: nat, tables: seq<Chunk>)
  {
    st.Put? ==> (lo <= st.c.off && st.c.off + |st.c.bs| <= hi) || st.c in tables
  }

  lemma {:induction false} ApartAppend<R>(
    a: seq<Step<R>>, b: seq<Step<R>>, lo: nat, mid: nat, hi: nat, s: seq<Chunk>, t: seq<Chunk>)
    requires PutsApart(a) && PutsApart(b) && lo <= mid <= hi
    requires forall n :: 0 <= n < |a| ==> HeadOr(a[n], lo, mid, s)
    requires forall n :: 0 <= n < |b| ==> HeadOr(b[n], mid, hi, t)
    requires forall i :: 0 <= i < |s + t| ==> hi <= (s + t)[i].off
    requires forall i, j :: 0 <= i < |s| && 0 <= j < |t| ==> !Meet(s[i], t[j])
    ensures PutsApart(a + b)
    ensures forall n :: 0 <= n < |a + b| ==> HeadOr((a + b)[n], lo, hi, s + t)
  {
    forall c | c in s || c in t ensures c in s + t && hi <= c.off {
      assert c in s + t;
      var i :| 0 <= i < |s + t| && (s + t)[i] == c;
    }
    forall n, m | 0 <= n < m < |a + b| && (a + b)[n].Put? && (a + b)[m].Put?
      ensures !Meet((a + b)[n].c, (a + b)[m].c)
    {
      if n < |a| <= m {
        var x, y := a[n], b[m - |a|];
        assert HeadOr(x, lo, mid, s) && HeadOr(y, mid, hi, t);
        if x.c in s && y.c in t {
          var i :| 0 <= i < |s| && s[i] == x.c;
          var j :| 0 <= j < |t| && t[j] == y.c;
        }
      }
    }
    forall n | 0 <= n < |a + b| ensures HeadOr((a + b)[n], lo, hi, s + t) {
      if n < |a| {
        assert HeadOr(a[n], lo, mid, s);
      } else {
        assert HeadOr(b[n - |a|], mid, hi, t);
      }
    }
  }

  lemma {:induction false} SectionsApart<R>(ss: seq<SectionView<R>>, heads: seq<bytes>, off: nat)
    requires |heads| == |ss|
    ensures PutsApart(SectionSteps(ss, heads, off))
    ensures forall n :: 0 <= n < |SectionSteps(ss, heads, off)| ==>
      HeadOr(SectionSteps(ss, heads, off)[n], off, off + Lengths(heads), [])
    decreases |ss|
  {
    if ss != [] {
      var first := [Put(Chunk(off, heads[0])), Body(ss[0])];
      var rest := SectionSteps(ss[1..], heads[1..], off + |heads[0]|);
      var none: seq<Chunk> := [];
      SectionsApart(ss[1..], heads[1..], off + |heads[0]|);
      assert SectionSteps(ss, heads, off) == first + rest;
      assert HeadOr(first[0], off, off + |heads[0]|, []) && HeadOr(first[1], off, off + |heads[0]|, []);
      hide SectionSteps, HeadOr;
      assert none + none == none;
      ApartAppend(first, rest, off, off + |heads[0]|, off + Lengths(heads), [], []);
    }
  }

  lemma {:induction false} CommandApart<R>(c: Command<R>, off: nat)
    requires c.Valid()
    requires c.Other? ==>
      && (forall i, j :: 0 <= i < j < |c.tables| ==> !Meet(c.tables[i], c.tables[j]))
      && (forall i :: 0 <= i < |c.tables| ==> off + c.Size() <= c.tables[i].off)
    ensures PutsApart(CommandSteps(c, off))
    ensures
      var tables := if c.Other? then c.tables else [];
      forall n :: 0 <= n < |CommandSteps(c, off)| ==> HeadOr(CommandSteps(c, off)[n], off, off + c.Size(), tables)
  {
    var first: seq<Step<R>> := [Put(Chunk(off, c.head))];
    var none: seq<Chunk> := [];
    match c
    case Load(g, head, heads) =>
      var rest := SectionSteps(g.sections, heads, off + |head|);
      SectionsApart(g.sections, heads, off + |head|);
      assert HeadOr(first[0], off, off + |head|, []);
      hide HeadOr;
      assert none + none == none;
      ApartAppend(first, rest, off, off + |head|, off + c.Size(), [], []);
    case Other(head, tables) =>
      var rest := Puts<R>(tables);
      forall n | 0 <= n < |rest| ensures HeadOr(rest[n], off + |head|, off + |head|, tables) {
        assert rest[n].c == tables[n];
      }
      assert HeadOr(first[0], off, off + |head|, []);
      hide HeadOr;
      ApartAppend(first, rest, off, off + |head|, off + |head|, [], tables);
      assert [] + tables == tables;
  }

  /** No two chunks of a list share a byte, and none reaches below `limit`. */
  predicate Spaced(cs: seq<Chunk>, limit: nat)
  {
    && (forall i, j :: 0 <= i < j < |cs| ==> !Meet(cs[i], cs[j]))
    && (forall i :: 0 <= i < |cs| ==> limit <= cs[i].off)
  }

  lemma {:induction false} SpacedParts(s: seq<Chunk>, t: seq<Chunk>, limit: nat)
    requires Spaced(s + t, limit)
    ensures Spaced(s, limit) && Spaced(t, limit)
    ensures forall i, j :: 0 <= i < |s| && 0 <= j < |t| ==> !Meet(s[i], t[j])
  {
    var u := s + t;
    hide Meet;
    forall i | 0 <= i < |s| ensures u[i] == s[i] {
    }
    forall i | 0 <= i < |t| ensures u[|s| + i] == t[i] {
    }
    forall i, j | 0 <= i < |s| && 0 <= j < |t| ensures !Meet(s[i], t[j]) {
      assert !Meet(u[i], u[|s| + j]);
    }
    forall i, j | 0 <= i < j < |t| ensures !Meet(t[i], t[j]) {
      assert !Meet(u[|s| + i], u[|s| + j]);
    }
    forall i | 0 <= i < |t| ensures limit <= t[i].off {
      assert limit <= u[|s| + i].off;
    }
  }

  /** The tables of one command. */
  function Own<R>(c: Command<R>): seq<Chunk>
  {
    if c.Other? then c.tables else []
  }

  lemma {:induction false} TablesCons<R>(cs: seq<Command<R>>)
    requires cs != []
    ensures Tables(cs) == Own(cs[0]) + Tables(cs[1..])
  {
  }

  lemma {:induction false} OwnApart<R>(c: Command<R>, off: nat, limit: nat)
    requires c.Valid() && Spaced(Own(c), limit) && off + c.Size() <= limit
    ensures PutsApart(CommandSteps(c, off))
    ensures forall n :: 0 <= n < |CommandSteps(c, off)| ==> HeadOr(CommandSteps(c, off)[n], off, off + c.Size(), Own(c))
  {
    hide CommandSteps, PutsApart, HeadOr, Meet;
    CommandApart(c, off);
  }

  lemma {:induction false} SpacedAbove(s: seq<Chunk>, limit: nat, hi: nat)
    requires Spaced(s, limit) && hi <= limit
    ensures forall i :: 0 <= i < |s| ==> hi <= s[i].off
  {
  }

  lemma {:induction false} CommandsCons<R>(cs: seq<Command<R>>, off: nat)
    requires AllValid(cs) && cs != []
    ensures cs[0].Valid() && AllValid(cs[1..]) && CommandsSize(cs) == cs[0].Size() + CommandsSize(cs[1..])
    ensures CommandsSteps(cs, off) == CommandSteps(cs[0], off) + CommandsSteps(cs[1..], off + cs[0].Size())
  {
    hide CommandSteps;
  }

  lemma {:induction false} NoCommands<R>(off: nat)
    ensures AllValid<R>([]) && PutsApart<R>(CommandsSteps([], off)) && |CommandsSteps<R>([], off)| == 0
  {
  }

  lemma {:induction false} CommandsApart<R>(cs: seq<Command<R>>, off: nat, limit: nat)
    requires AllValid(cs) && off + CommandsSize(cs) <= limit && Spaced(Tables(cs), limit)
    ensures PutsApart(CommandsSteps(cs, off))
    ensures forall n :: 0 <= n < |CommandsSteps(cs, off)| ==>
      HeadOr(CommandsSteps(cs, off)[n], off, off + CommandsSize(cs), Tables(cs))
    decreases |cs|
  {
    hide *;
    if cs == [] {
      NoCommands<R>(off);
    } else {
      CommandsCons(cs, off);
      TablesCons(cs);
      var c, next := cs[0], off + cs[0].Size();
      var s, t := Own(c), Tables(cs[1..]);
      SpacedAbove(s + t, limit, off + CommandsSize(cs));
      SpacedParts(s, t, limit);
      OwnApart(c, off, limit);
      CommandsApart(cs[1..], next, limit);
      ApartAppend(CommandSteps(c, off), CommandsSteps(cs[1..], next), off, next, off + CommandsSize(cs), s, t);
    }
  }

  // ----- what was put stays -----

  lemma {:induction false} PutStands<R>(
    sts: seq<Step<R>>, word: nat, at: map<R, nat>, index: map<nat, uint32>, data: bytes, n: nat)
    requires DoAll(sts, word, at, index, data).Some? && n < |sts| && sts[n].Put?
    requires forall m :: n < m < |sts| ==> High(sts[m], word) <= Low(sts[n]) || High(sts[n], word) <= Low(sts[m])
    ensures Holds(DoAll(sts, word, at, index, data).value, sts[n].c.off, sts[n].c.bs)
    decreases n
  {
    hide *;
    DoAllStep(sts, word, at, index, data);
    var d := Do(sts[0], word, at, index, data).value;
    if n == 0 {
      PutHolds(sts[0], word, at, index, data);
      StepsHold(sts[1..], word, at, index, d, sts[0].c.off, sts[0].c.bs);
    } else {
      PutStands(sts[1..], word, at, index, d, n - 1);
    }
  }

  lemma {:induction false} PutHolds<R>(
    st: Step<R>, word: nat, at: map<R, nat>, index: map<nat, uint32>, data: bytes)
    requires st.Put?
    ensures High(st, word) == st.c.off + |st.c.bs| && Low(st) == st.c.off
    ensures Do(st, word, at, index, data).Some? && Holds(Do(st, word, at, index, data).value, st.c.off, st.c.bs)
  {
  }

  lemma {:induction false} AllPutsApart<R>(header: bytes, cs: seq<Command<R>>, limit: nat)
    requires AllValid(cs) && |header| + CommandsSize(cs) <= limit && Spaced(Tables(cs), limit)
    ensures PutsApart(ArchiveSteps(header, cs))
  {
    var first: seq<Step<R>> := [Put(Chunk(0, header))];
    var none: seq<Chunk> := [];
    assert ArchiveSteps(header, cs) == first + CommandsSteps(cs, |header|) && none + Tables(cs) == Tables(cs);
    assert HeadOr(first[0], 0, |header|, []) && PutsApart(first);
    hide *;
    CommandsApart(cs, |header|, limit);
    SpacedAbove(Tables(cs), limit, |header| + CommandsSize(cs));
    ApartAppend(first, CommandsSteps(cs, |header|), 0, |header|, |header| + CommandsSize(cs), none, Tables(cs));
  }

  lemma {:induction false} FirstStep<R>(header: bytes, cs: seq<Command<R>>, word: nat)
    requires AllValid(cs)
    ensures ArchiveSteps(header, cs) != [] && High(ArchiveSteps(header, cs)[0], word) == |header|
    ensures ArchiveSteps(header, cs) == [Put(Chunk(0, header))] + CommandsSteps(cs, |header|)
  {
  }

  lemma {:induction false} HeaderBelow<R>(
    st: Step<R>, header: bytes, gs: seq<SegmentView<R>>, word: nat, limit: nat)
    requires LaidOut(gs, word, limit) && |header| <= limit && st.Body? && From(st, gs, limit, 0, |gs|)
    ensures |header| <= Low(st)
  {
    hide LaidOut, BodyIn;
    var k: nat, i: nat :| k < |gs| && BodyIn(st, gs, k, i);
    BodyRange(st, gs, word, limit, k, i);
  }

  lemma {:induction false} SpreadPair<R>(sts: seq<Step<R>>, word: nat, n: nat, m: nat)
    requires Spread(sts, word) && n < m < |sts| && sts[m].Body?
    ensures High(sts[m], word) <= Low(sts[n]) || High(sts[n], word) <= Low(sts[m])
  {
    assert Apart(sts[n], sts[m], word);
  }

  /** A write that is not a section's against one that is. */
  lemma {:induction false} PutAndBody<R>(
    header: bytes, cs: seq<Command<R>>, gs: seq<SegmentView<R>>, word: nat, limit: nat, n: nat, m: nat)
    requires LaidOut(gs, word, limit) && AllValid(cs) && |header| + CommandsSize(cs) <= limit && TablesIn(cs, gs)
    requires Segments(cs) == gs && n < m < |ArchiveSteps(header, cs)|
    requires ArchiveSteps(header, cs)[n].Put? && ArchiveSteps(header, cs)[m].Body?
    ensures
      var a, b := ArchiveSteps(header, cs)[n], ArchiveSteps(header, cs)[m];
      High(b, word) <= Low(a) || High(a, word) <= Low(b)
  {
    hide *;
    FirstStep(header, cs, word);
    var sts, rest := ArchiveSteps(header, cs), CommandsSteps(cs, |header|);
    assert gs[0..] == gs && sts[m] == rest[m - 1];
    CommandsStepsSpread(cs, gs, word, limit, 0, |header|);
    if n > 0 {
      assert sts[n] == rest[n - 1];
      SpreadPair(rest, word, n - 1, m - 1);
    } else {
      HeaderBelow(sts[m], header, gs, word, limit);
    }
  }

  lemma {:induction false} PutAndPut<R>(sts: seq<Step<R>>, word: nat, n: nat, m: nat)
    requires PutsApart(sts) && n < m < |sts| && sts[n].Put? && sts[m].Put?
    ensures High(sts[m], word) <= Low(sts[n]) || High(sts[n], word) <= Low(sts[m])
  {
    assert !Meet(sts[n].c, sts[m].c);
  }

  /** In the finished file of a laid out archive every write that is not a section's still stands. */
  lemma {:induction false} EveryPutStands<R>(
    header: bytes, cs: seq<Command<R>>, gs: seq<SegmentView<R>>, word: nat, at: map<R, nat>, index: map<nat, uint32>,
    data: bytes, limit: nat, n: nat)
    requires LaidOut(gs, word, limit) && AllValid(cs) && |header| + CommandsSize(cs) <= limit && TablesIn(cs, gs)
    requires Segments(cs) == gs && Spaced(Tables(cs), limit)
    requires DoAll(ArchiveSteps(header, cs), word, at, index, data).Some?
    requires n < |ArchiveSteps(header, cs)| && ArchiveSteps(header, cs)[n].Put?
    ensures
      var c := ArchiveSteps(header, cs)[n].c;
      Holds(DoAll(ArchiveSteps(header, cs), word, at, index, data).value, c.off, c.bs)
  {
    hide *;
    var sts := ArchiveSteps(header, cs);
    AllPutsApart(header, cs, limit);
    forall m | n < m < |sts| ensures High(sts[m], word) <= Low(sts[n]) || High(sts[n], word) <= Low(sts[m]) {
      if sts[m].Put? {
        PutAndPut(sts, word, n, m);
      } else {
        PutAndBody(header, cs, gs, word, limit, n, m);
      }
    }
    PutStands(sts, word, at, index, data, n);
  }

  // ----- header, commands, section structures and tables -----

  lemma {:induction false} SizeCons<R>(cs: seq<Command<R>>, n: nat)
    requires AllValid(cs) && 0 < n <= |cs|
    ensures CommandsSize(cs[..n]) == cs[0].Size() + CommandsSize(cs[1..][..n - 1])
  {
    assert cs[..n][1..] == cs[1..][..n - 1];
  }

  /** The writes of command `n` among those of all commands. */
  lemma {:induction false} Located<R>(cs: seq<Command<R>>, off: nat, n: nat) returns (k: nat)
    requires AllValid(cs) && n < |cs|
    ensures
      var own, all := CommandSteps(cs[n], off + CommandsSize(cs[..n])), CommandsSteps(cs, off);
      k + |own| <= |all| && all[k..k + |own|] == own
    decreases n
  {
    hide CommandSteps;
    var first, rest := CommandSteps(cs[0], off), CommandsSteps(cs[1..], off + cs[0].Size());
    if n == 0 {
      k := 0;
      assert CommandsSize(cs[..0]) == 0;
      assert (first + rest)[..|first|] == first;
    } else {
      SizeCons(cs, n);
      var j := Located(cs[1..], off + cs[0].Size(), n - 1);
      var own := CommandSteps(cs[n], off + CommandsSize(cs[..n]));
      k := |first| + j;
      assert (first + rest)[k..k + |own|] == rest[j..j + |own|];
    }
  }

  lemma {:induction false} LengthsCons(heads: seq<bytes>, i: nat)
    requires 0 < i <= |heads|
    ensures Lengths(heads[..i]) == |heads[0]| + Lengths(heads[1..][..i - 1])
  {
    assert heads[..i][1..] == heads[1..][..i - 1];
  }

  lemma {:induction false} SectionHead<R>(ss: seq<SectionView<R>>, heads: seq<bytes>, off: nat, i: nat)
    requires |heads| == |ss| && i < |ss|
    ensures
      var sts := SectionSteps(ss, heads, off);
      2 * i < |sts| && sts[2 * i] == Put(Chunk(off + Lengths(heads[..i]), heads[i]))
    decreases i
  {
    if i > 0 {
      LengthsCons(heads, i);
      SectionHead(ss[1..], heads[1..], off + |heads[0]|, i - 1);
    }
  }

  /** The pieces a command puts: its own structure, and those of its sections or its tables. */
  ghost predicate PiecesStand<R>(c: Command<R>, off: nat, data: bytes)
    requires c.Valid()
  {
    && Holds(data, off, c.head)
    && match c
       case Load(_, head, heads) =>
         forall i :: 0 <= i < |heads| ==> Holds(data, off + |head| + Lengths(heads[..i]), heads[i])
       case Other(_, tables) => forall i :: 0 <= i < |tables| ==> Holds(data, tables[i].off, tables[i].bs)
  }

  lemma {:induction false} PiecesAre<R>(c: Command<R>, off: nat, data: bytes)
    requires c.Valid()
    requires forall n :: 0 <= n < |CommandSteps(c, off)| && CommandSteps(c, off)[n].Put? ==>
      Holds(data, CommandSteps(c, off)[n].c.off, CommandSteps(c, off)[n].c.bs)
    ensures PiecesStand(c, off, data)
  {
    var sts := CommandSteps(c, off);
    assert sts[0] == Put(Chunk(off, c.head));
    hide Holds;
    match c
    case Load(g, head, heads) =>
      var own := SectionSteps(g.sections, heads, off + |head|);
      forall i | 0 <= i < |heads| ensures Holds(data, off + |head| + Lengths(heads[..i]), heads[i]) {
        SectionHead(g.sections, heads, off + |head|, i);
        assert sts[2 * i + 1] == own[2 * i];
      }
    case Other(head, tables) =>
      forall i | 0 <= i < |tables| ensures Holds(data, tables[i].off, tables[i].bs) {
        assert sts[i + 1] == Puts<R>(tables)[i] == Put(tables[i]);
      }
  }

  /**
   In the finished file of a laid out archive the header stands at its start, every load command behind the header and
   the commands before it, with its section structures one after the other, and every table at its offset.
   */
  lemma {:induction false} HeadsStand<R>(
    header: bytes, cs: seq<Command<R>>, gs: seq<SegmentView<R>>, word: nat, at: map<R, nat>, index: map<nat, uint32>,
    data: bytes, limit: nat, n: nat)
    requires LaidOut(gs, word, limit) && AllValid(cs) && |header| + CommandsSize(cs) <= limit && TablesIn(cs, gs)
    requires Segments(cs) == gs && Spaced(Tables(cs), limit) && n < |cs|
    requires DoAll(ArchiveSteps(header, cs), word, at, index, data).Some?
    ensures Holds(DoAll(ArchiveSteps(header, cs), word, at, index, data).value, 0, header)
    ensures PiecesStand(cs[n], HeadAt(header, cs, n), DoAll(ArchiveSteps(header, cs), word, at, index, data).value)
  {
    hide *;
    var file := DoAll(ArchiveSteps(header, cs), word, at, index, data).value;
    StepsAre(header, cs, n);
    EveryPutStands(header, cs, gs, word, at, index, data, limit, 0);
    var k := Located(cs, |header|, n);
    var sts, own := ArchiveSteps(header, cs), CommandSteps(cs[n], HeadAt(header, cs, n));
    OwnSteps(sts, CommandsSteps(cs, |header|), own, k);
    forall m | 0 <= m < |own| && own[m].Put? ensures Holds(file, own[m].c.off, own[m].c.bs) {
      EveryPutStands(header, cs, gs, word, at, index, data, limit, 1 + k + m);
    }
    PiecesAre(cs[n], HeadAt(header, cs, n), file);
  }

  lemma {:induction false} StepsAre<R>(header: bytes, cs: seq<Command<R>>, n: nat)
    requires AllValid(cs) && n < |cs|
    ensures
      var sts := ArchiveSteps(header, cs);
      |sts| > 0 && sts[0] == Put(Chunk(0, header)) && sts[1..] == CommandsSteps(cs, |header|)
    ensures cs[n].Valid() && HeadAt(header, cs, n) == |header| + CommandsSize(cs[..n])
  {
  }

  lemma {:induction false} OwnSteps<R>(sts: seq<Step<R>>, all: seq<Step<R>>, own: seq<Step<R>>, k: nat)
    requires |sts| > 0 && sts[1..] == all && k + |own| <= |all| && all[k..k + |own|] == own
    ensures |sts| == 1 + |all| && forall m :: 0 <= m < |own| ==> own[m] == sts[1 + k + m]
  {
    forall m | 0 <= m < |own| ensures own[m] == sts[1 + k + m] {
      assert own[m] == all[k + m] && all[k + m] == sts[1..][k + m];
    }
  }
}
