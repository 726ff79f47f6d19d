/**
 * The clear-state buffer (CSB): the packet stream the RLC replays to put
 * every context register into its default state. get_csb_size predicts its
 * length and get_csb_buffer writes it; both walk the same section table.
 */
module Csb {
  import opened Words
  import opened Packets

  /** enum cs_section_id */
  datatype SectionId = SectNone | SectContext | SectClear | SectCtrlConst

  /** struct cs_extent_def: reg_count consecutive registers from reg_index; reg_count is |values|. */
  datatype Extent = Extent(regIndex: u32, values: seq<u32>)

  /** struct cs_section_def */
  datatype Section = Section(id: SectionId, extents: seq<Extent>)

  /** PACKET3_SET_CONTEXT_REG_START: SET_CONTEXT_REG offsets count from this register. */
  const SET_CONTEXT_REG_START: u32 := 0xa000

  /** A section both functions refuse: a non-context section that has an extent. */
  predicate Rejects(s: Section) {
    s.id != SectContext && |s.extents| > 0
  }

  // ---------------------------------------------------------------------------
  // gfx_v10_0_get_csb_size

  /** Words the extents below m of a context section add: two per extent plus its registers. */
  function ExtentsCount(es: seq<Extent>, m: nat): nat
    requires m <= |es|
  {
    if m == 0 then 0 else ExtentsCount(es, m - 1) + 2 + |es[m - 1].values|
  }

  /** The sections' running count below n, or None once a rejected section is met. */
  function SectionsCount(cs: seq<Section>, n: nat): (k: Option<nat>)
    requires n <= |cs|
    ensures k.Some? <==> forall i :: 0 <= i < n ==> !Rejects(cs[i])
  {
    if n == 0 then Some(0)
    else match SectionsCount(cs, n - 1)
      case None => None
      case Some(k) =>
        if Rejects(cs[n - 1]) then None
        else Some(k + ExtentsCount(cs[n - 1].extents, |cs[n - 1].extents|))
  }

  /**
   * gfx_v10_0_get_csb_size: preamble 2, context control 3, the sections,
   * tile steering 3, preamble end 2, clear state 2; 0 for a rejected table.
   */
  function CsbSize(cs: seq<Section>): (count: nat)
    ensures count == 0 <==> exists i :: 0 <= i < |cs| && Rejects(cs[i])
    ensures count != 0 ==> count >= 12
  {
    match SectionsCount(cs, |cs|)
    case None => 0
    case Some(k) => 2 + 3 + k + 3 + 2 + 2
  }

  // ---------------------------------------------------------------------------
  // gfx_v10_0_get_csb_buffer

  function RawWords(vs: seq<u32>): (ws: seq<Word>)
    ensures |ws| == |vs| && forall k :: 0 <= k < |vs| ==> ws[k] == Raw(vs[k])
  {
    seq(|vs|, k requires 0 <= k < |vs| => Raw(vs[k]))
  }

  /** PREAMBLE_CNTL with BEGIN_CLEAR_STATE or END_CLEAR_STATE. */
  function PreamblePacket(begin: bool): seq<Word> {
    [Header(PreambleCntl, 0),
     Fields(PreambleCntl, if begin then map[PreambleBeginClearState := 1] else map[PreambleEndClearState := 1])]
  }

  /** CONTEXT_CONTROL with load and shadow enables set. */
  function ContextControlPacket(): seq<Word> {
    [Header(ContextControl, 1), Raw(0x8000_0000), Raw(0x8000_0000)]
  }

  /** SET_CONTEXT_REG: the register offset from SET_CONTEXT_REG_START, then the values. */
  function SetContextRegPacket(regIndex: u32, values: seq<u32>): seq<Word> {
    [Header(SetContextReg, |values|), Raw(Sub32(regIndex, SET_CONTEXT_REG_START))] + RawWords(values)
  }

  function ClearStatePacket(): seq<Word> {
    [Header(ClearState, 0), Raw(0)]
  }

  /** One extent as a SET_CONTEXT_REG packet. */
  function ExtentWords(e: Extent): seq<Word> {
    SetContextRegPacket(e.regIndex, e.values)
  }

  function ExtentsWords(es: seq<Extent>, m: nat): seq<Word>
    requires m <= |es|
  {
    if m == 0 then [] else ExtentsWords(es, m - 1) + ExtentWords(es[m - 1])
  }

  /** What the section loop writes: the packets of the sections below n, and whether it ran to the end. */
  datatype Body = Body(ws: seq<Word>, complete: bool)

  function SectionsWords(cs: seq<Section>, n: nat): Body
    requires n <= |cs|
  {
    if n == 0 then Body([], true)
    else
      var b := SectionsWords(cs, n - 1);
      if !b.complete then b
      else if Rejects(cs[n - 1]) then Body(b.ws, false)
      else Body(b.ws + ExtentsWords(cs[n - 1].extents, |cs[n - 1].extents|), true)
  }

  function BeginWords(): seq<Word> {
    PreamblePacket(true) + ContextControlPacket()
  }

  /** Tile steering override, the end preamble and CLEAR_STATE. */
  function EndWords(tileSteeringReg: u32, tileSteering: u32): seq<Word> {
    SetContextRegPacket(tileSteeringReg, [tileSteering]) + PreamblePacket(false) + ClearStatePacket()
  }

  /**
   * Everything get_csb_buffer writes for a present table: the whole buffer,
   * or only the prefix before the first rejected section.
   */
  function CsbStream(cs: seq<Section>, tileSteeringReg: u32, tileSteering: u32): seq<Word> {
    var b := SectionsWords(cs, |cs|);
    if b.complete then BeginWords() + b.ws + EndWords(tileSteeringReg, tileSteering)
    else BeginWords() + b.ws
  }

  // ---------------------------------------------------------------------------
  // Size and buffer agree

  lemma {:induction false} ExtentsAgree(es: seq<Extent>, m: nat)
    requires m <= |es|
    ensures |ExtentsWords(es, m)| == ExtentsCount(es, m)
  {
    if m > 0 {
      ExtentsAgree(es, m - 1);
    }
  }

  lemma {:induction false} SectionsAgree(cs: seq<Section>, n: nat)
    requires n <= |cs|
    ensures SectionsWords(cs, n).complete <==> SectionsCount(cs, n).Some?
    ensures SectionsCount(cs, n).Some? ==> |SectionsWords(cs, n).ws| == SectionsCount(cs, n).value
  {
    if n > 0 {
      SectionsAgree(cs, n - 1);
      ExtentsAgree(cs[n - 1].extents, |cs[n - 1].extents|);
    }
  }

  /**
   * The size get_csb_size reports is exactly the number of words
   * get_csb_buffer writes when every section with extents is a context
   * section; otherwise the size is 0 while the writer still emits its prefix.
   */
  lemma CsbSizeMatchesBuffer(cs: seq<Section>, tileSteeringReg: u32, tileSteering: u32)
    ensures (forall i :: 0 <= i < |cs| ==> !Rejects(cs[i])) ==>
              |CsbStream(cs, tileSteeringReg, tileSteering)| == CsbSize(cs)
    ensures (exists i :: 0 <= i < |cs| && Rejects(cs[i])) ==>
              CsbSize(cs) == 0 && |CsbStream(cs, tileSteeringReg, tileSteering)| >= 5
  {
    SectionsAgree(cs, |cs|);
  }

  // ---------------------------------------------------------------------------
  // What the stream means

  function ExtentCmd(e: Extent): Command {
    SetContextRegCmd(Sub32(e.regIndex, SET_CONTEXT_REG_START), e.values)
  }

  function ExtentsCmds(es: seq<Extent>, m: nat): (r: seq<Command>)
    requires m <= |es|
    ensures |r| == m && forall k :: 0 <= k < m ==> r[k] == ExtentCmd(es[k])
  {
    if m == 0 then [] else ExtentsCmds(es, m - 1) + [ExtentCmd(es[m - 1])]
  }

  /** The register loads of the accepted sections below n, one per extent, in table order. */
  function SectionsCmds(cs: seq<Section>, n: nat): seq<Command>
    requires n <= |cs|
  {
    if n == 0 then []
    else
      var s := cs[n - 1];
      if Rejects(s) || SectionsCount(cs, n - 1).None? then SectionsCmds(cs, n - 1)
      else SectionsCmds(cs, n - 1) + ExtentsCmds(s.extents, |s.extents|)
  }

  lemma PreambleDecodes(begin: bool)
    ensures DecodeStream(PreamblePacket(begin)) == Some([PreambleCmd(begin)])
  {
    assert DecodePacket(PreamblePacket(begin)) == Some(PreambleCmd(begin));
    DecodeSingle(PreamblePacket(begin), PreambleCmd(begin));
  }

  lemma ContextControlDecodes()
    ensures DecodeStream(ContextControlPacket()) == Some([ContextControlCmd(0x8000_0000, 0x8000_0000)])
  {
    assert DecodePacket(ContextControlPacket()) == Some(ContextControlCmd(0x8000_0000, 0x8000_0000));
    DecodeSingle(ContextControlPacket(), ContextControlCmd(0x8000_0000, 0x8000_0000));
  }

  lemma SetContextRegDecodes(regIndex: u32, values: seq<u32>)
    ensures DecodeStream(SetContextRegPacket(regIndex, values)) ==
              Some([SetContextRegCmd(Sub32(regIndex, SET_CONTEXT_REG_START), values)])
  {
    var p := SetContextRegPacket(regIndex, values);
    assert DataFrom(p, 2) == values;
    assert DecodePacket(p) == Some(SetContextRegCmd(Sub32(regIndex, SET_CONTEXT_REG_START), values));
    DecodeSingle(p, SetContextRegCmd(Sub32(regIndex, SET_CONTEXT_REG_START), values));
  }

  lemma ClearStateDecodes()
    ensures DecodeStream(ClearStatePacket()) == Some([ClearStateCmd(0)])
  {
    assert DecodePacket(ClearStatePacket()) == Some(ClearStateCmd(0));
    DecodeSingle(ClearStatePacket(), ClearStateCmd(0));
  }

  lemma ExtentDecodes(e: Extent)
    ensures DecodeStream(ExtentWords(e)) == Some([ExtentCmd(e)])
  {
    SetContextRegDecodes(e.regIndex, e.values);
  }

  lemma {:induction false} ExtentsDecode(es: seq<Extent>, m: nat)
    requires m <= |es|
    ensures DecodeStream(ExtentsWords(es, m)) == Some(ExtentsCmds(es, m))
  {
    if m > 0 {
      ExtentsDecode(es, m - 1);
      ExtentDecodes(es[m - 1]);
      DecodeStreamConcat(ExtentsWords(es, m - 1), ExtentWords(es[m - 1]), ExtentsCmds(es, m - 1), [ExtentCmd(es[m - 1])]);
    }
  }

  /** An accepted section's extents follow the packets of the sections before it. */
  lemma SectionsDecodeStep(cs: seq<Section>, n: nat)
    requires 0 < n <= |cs| && !Rejects(cs[n - 1]) && SectionsWords(cs, n - 1).complete
    requires SectionsCount(cs, n - 1).Some?
    requires DecodeStream(SectionsWords(cs, n - 1).ws) == Some(SectionsCmds(cs, n - 1))
    ensures DecodeStream(SectionsWords(cs, n).ws) == Some(SectionsCmds(cs, n))
  {
    var es := cs[n - 1].extents;
    var ew := ExtentsWords(es, |es|);
    assert SectionsWords(cs, n).ws == SectionsWords(cs, n - 1).ws + ew;
    assert SectionsCmds(cs, n) == SectionsCmds(cs, n - 1) + ExtentsCmds(es, |es|);
    ExtentsDecode(es, |es|);
    DecodeStreamConcat(SectionsWords(cs, n - 1).ws, ew, SectionsCmds(cs, n - 1), ExtentsCmds(es, |es|));
  }

  lemma {:induction false} SectionsDecode(cs: seq<Section>, n: nat)
    requires n <= |cs|
    ensures DecodeStream(SectionsWords(cs, n).ws) == Some(SectionsCmds(cs, n))
  {
    if n > 0 {
      SectionsDecode(cs, n - 1);
      SectionsAgree(cs, n - 1);
      if !Rejects(cs[n - 1]) && SectionsCount(cs, n - 1).Some? {
        SectionsDecodeStep(cs, n);
      } else {
        assert SectionsWords(cs, n).ws == SectionsWords(cs, n - 1).ws;
        assert SectionsCmds(cs, n) == SectionsCmds(cs, n - 1);
      }
    }
  }

  lemma BeginDecodes()
    ensures DecodeStream(BeginWords()) ==
              Some([PreambleCmd(true), ContextControlCmd(0x8000_0000, 0x8000_0000)])
  {
    PreambleDecodes(true);
    ContextControlDecodes();
    DecodeStreamConcat(PreamblePacket(true), ContextControlPacket(), [PreambleCmd(true)], [ContextControlCmd(0x8000_0000, 0x8000_0000)]);
    assert [PreambleCmd(true)] + [ContextControlCmd(0x8000_0000, 0x8000_0000)] ==
           [PreambleCmd(true), ContextControlCmd(0x8000_0000, 0x8000_0000)];
  }

  lemma EndDecodes(tileSteeringReg: u32, tileSteering: u32)
    ensures DecodeStream(EndWords(tileSteeringReg, tileSteering)) ==
              Some([SetContextRegCmd(Sub32(tileSteeringReg, SET_CONTEXT_REG_START), [tileSteering]),
                    PreambleCmd(false), ClearStateCmd(0)])
  {
    var p := SetContextRegPacket(tileSteeringReg, [tileSteering]);
    SetContextRegDecodes(tileSteeringReg, [tileSteering]);
    PreambleDecodes(false);
    ClearStateDecodes();
    var c := SetContextRegCmd(Sub32(tileSteeringReg, SET_CONTEXT_REG_START), [tileSteering]);
    DecodeStreamConcat(p, PreamblePacket(false), [c], [PreambleCmd(false)]);
    DecodeStreamConcat(p + PreamblePacket(false), ClearStatePacket(), [c] + [PreambleCmd(false)], [ClearStateCmd(0)]);
    assert [c] + [PreambleCmd(false)] + [ClearStateCmd(0)] == [c, PreambleCmd(false), ClearStateCmd(0)];
  }

  /**
   * Read back, the buffer begins the clear state, sets context control,
   * loads every extent of the accepted sections in table order, and, when
   * no section was rejected, sets the tile steering override, ends the clear
   * state and issues CLEAR_STATE.
   */
  lemma CsbStreamDecodes(cs: seq<Section>, tileSteeringReg: u32, tileSteering: u32)
    ensures var begin := [PreambleCmd(true), ContextControlCmd(0x8000_0000, 0x8000_0000)];
            var end := [SetContextRegCmd(Sub32(tileSteeringReg, SET_CONTEXT_REG_START), [tileSteering]),
                        PreambleCmd(false), ClearStateCmd(0)];
            DecodeStream(CsbStream(cs, tileSteeringReg, tileSteering)) ==
              if CsbSize(cs) != 0 then Some(begin + SectionsCmds(cs, |cs|) + end)
              else Some(begin + SectionsCmds(cs, |cs|))
  {
    var begin := [PreambleCmd(true), ContextControlCmd(0x8000_0000, 0x8000_0000)];
    var end := [SetContextRegCmd(Sub32(tileSteeringReg, SET_CONTEXT_REG_START), [tileSteering]),
                PreambleCmd(false), ClearStateCmd(0)];
    var b := SectionsWords(cs, |cs|);
    SectionsAgree(cs, |cs|);
    BeginDecodes();
    SectionsDecode(cs, |cs|);
    DecodeStreamConcat(BeginWords(), b.ws, begin, SectionsCmds(cs, |cs|));
    if b.complete {
      EndDecodes(tileSteeringReg, tileSteering);
      DecodeStreamConcat(BeginWords() + b.ws, EndWords(tileSteeringReg, tileSteering),
                         begin + SectionsCmds(cs, |cs|), end);
    }
  }

  // ---------------------------------------------------------------------------
  // The writer

  /** The words ws sit in buffer from index at on. */
  ghost predicate Holds(buffer: array<Word>, at: nat, ws: seq<Word>)
    reads buffer
  {
    at + |ws| <= buffer.Length && forall k :: 0 <= k < |ws| ==> buffer[at + k] == ws[k]
  }

  lemma HoldsAppend(buffer: array<Word>, at: nat, xs: seq<Word>, ys: seq<Word>)
    requires Holds(buffer, at, xs) && Holds(buffer, at + |xs|, ys)
    ensures Holds(buffer, at, xs + ys)
  {
    forall k | 0 <= k < |xs + ys|
      ensures buffer[at + k] == (xs + ys)[k]
    {
      if k >= |xs| {
        assert buffer[at + |xs| + (k - |xs|)] == ys[k - |xs|];
      }
    }
  }

  /** Words below lo that a write left alone still hold what they held. */
  lemma HoldsKept(buffer: array<Word>, snap: seq<Word>, at: nat, ws: seq<Word>, lo: nat)
    requires |snap| == buffer.Length && at + |ws| <= lo <= buffer.Length
    requires forall k :: 0 <= k < |ws| ==> snap[at + k] == ws[k]
    requires forall k :: 0 <= k < lo ==> buffer[k] == snap[k]
    ensures Holds(buffer, at, ws)
  {
    forall k | 0 <= k < |ws|
      ensures buffer[at + k] == ws[k]
    {
      assert buffer[at + k] == snap[at + k];
    }
  }

  /** buffer[count++] = w */
  method Put(buffer: array<Word>, count: nat, w: Word) returns (count': nat)
    requires count < buffer.Length
    modifies buffer
    ensures count' == count + 1 && Holds(buffer, count, [w])
    ensures forall k :: 0 <= k < buffer.Length && k != count ==> buffer[k] == old(buffer[k])
  {
    buffer[count] := w;
    count' := count + 1;
  }

  /** A fixed run of words, one buffer[count++] each. */
  method PutWords(buffer: array<Word>, count: nat, ws: seq<Word>) returns (count': nat)
    requires count + |ws| <= buffer.Length
    modifies buffer
    ensures count' == count + |ws| && Holds(buffer, count, ws)
    ensures forall k :: 0 <= k < buffer.Length && !(count <= k < count') ==> buffer[k] == old(buffer[k])
  {
    count' := count;
    for i := 0 to |ws|
      invariant count' == count + i
      invariant Holds(buffer, count, ws[..i])
      invariant forall k :: 0 <= k < buffer.Length && !(count <= k < count') ==> buffer[k] == old(buffer[k])
    {
      count' := Put(buffer, count', ws[i]);
      HoldsAppend(buffer, count, ws[..i], [ws[i]]);
      assert ws[..i] + [ws[i]] == ws[..i + 1];
    }
    assert ws[..|ws|] == ws;
  }

  /** One SET_CONTEXT_REG packet: header, register offset, then every register value. */
  method PutExtent(buffer: array<Word>, count: nat, e: Extent) returns (count': nat)
    requires count + 2 + |e.values| <= buffer.Length
    modifies buffer
    ensures count' == count + |ExtentWords(e)| && Holds(buffer, count, ExtentWords(e))
    ensures forall k :: 0 <= k < buffer.Length && !(count <= k < count') ==> buffer[k] == old(buffer[k])
  {
    var ew := ExtentWords(e);
    count' := Put(buffer, count, Header(SetContextReg, |e.values|));
    count' := Put(buffer, count', Raw(Sub32(e.regIndex, SET_CONTEXT_REG_START)));
    HoldsAppend(buffer, count, [Header(SetContextReg, |e.values|)], [Raw(Sub32(e.regIndex, SET_CONTEXT_REG_START))]);
    assert ew[..2] == [Header(SetContextReg, |e.values|)] + [Raw(Sub32(e.regIndex, SET_CONTEXT_REG_START))];
    for i := 0 to |e.values|
      invariant count' == count + 2 + i
      invariant Holds(buffer, count, ew[..2 + i])
      invariant forall k :: 0 <= k < buffer.Length && !(count <= k < count') ==> buffer[k] == old(buffer[k])
    {
      count' := Put(buffer, count', Raw(e.values[i]));
      HoldsAppend(buffer, count, ew[..2 + i], [Raw(e.values[i])]);
      assert ew[..2 + i] + [Raw(e.values[i])] == ew[..2 + i + 1];
    }
    assert ew[..2 + |e.values|] == ew;
  }

  lemma {:induction false} SectionsWordsGrow(cs: seq<Section>, n: nat)
    requires n < |cs| && SectionsWords(cs, n).complete
    ensures |SectionsWords(cs, n).ws| <= |SectionsWords(cs, n + 1).ws|
    ensures !Rejects(cs[n]) ==>
              SectionsWords(cs, n + 1) ==
                Body(SectionsWords(cs, n).ws + ExtentsWords(cs[n].extents, |cs[n].extents|), true)
    ensures Rejects(cs[n]) ==> SectionsWords(cs, n + 1) == Body(SectionsWords(cs, n).ws, false)
  {
  }

  lemma {:induction false} SectionsWordsMonotone(cs: seq<Section>, n: nat)
    requires n <= |cs|
    ensures |SectionsWords(cs, n).ws| <= |SectionsWords(cs, |cs|).ws|
    ensures !SectionsWords(cs, n).complete ==> SectionsWords(cs, |cs|) == SectionsWords(cs, n)
    decreases |cs| - n
  {
    if n < |cs| {
      SectionsWordsMonotone(cs, n + 1);
      if SectionsWords(cs, n).complete {
        SectionsWordsGrow(cs, n);
      }
    }
  }

  lemma ExtentsWordsStep(es: seq<Extent>, m: nat)
    requires m < |es|
    ensures ExtentsWords(es, m + 1) == ExtentsWords(es, m) + ExtentWords(es[m])
  {
  }

  lemma {:induction false} ExtentsWordsMonotone(es: seq<Extent>, m: nat)
    requires m <= |es|
    ensures |ExtentsWords(es, m)| <= |ExtentsWords(es, |es|)|
    decreases |es| - m
  {
    if m < |es| {
      ExtentsWordsMonotone(es, m + 1);
    }
  }

  /**
   * The extents of one section the writer accepts: a context section, or a
   * section without extents, whose inner loop never runs.
   */
  method PutSection(buffer: array<Word>, count: nat, s: Section) returns (count': nat)
    requires !Rejects(s)
    requires count + |ExtentsWords(s.extents, |s.extents|)| <= buffer.Length
    modifies buffer
    ensures count' == count + |ExtentsWords(s.extents, |s.extents|)|
    ensures Holds(buffer, count, ExtentsWords(s.extents, |s.extents|))
    ensures forall k :: 0 <= k < buffer.Length && !(count <= k < count') ==> buffer[k] == old(buffer[k])
  {
    count' := count;
    ExtentsWordsMonotone(s.extents, 0);
    for j := 0 to |s.extents|
      invariant count' == count + |ExtentsWords(s.extents, j)| <= buffer.Length
      invariant Holds(buffer, count, ExtentsWords(s.extents, j))
      invariant forall k :: 0 <= k < buffer.Length && !(count <= k < count') ==> buffer[k] == old(buffer[k])
    {
      ExtentsWordsStep(s.extents, j);
      ExtentsWordsMonotone(s.extents, j + 1);
      ghost var before := ExtentsWords(s.extents, j);
      ghost var snap := buffer[..];
      ghost var mid := count';
      count' := PutExtent(buffer, count', s.extents[j]);
      HoldsKept(buffer, snap, count, before, mid);
      HoldsAppend(buffer, count, before, ExtentWords(s.extents[j]));
    }
  }

  /**
   * The section loop of get_csb_buffer. It stops at the first rejected
   * section, where the source returns from the whole function; complete
   * says whether it ran to the end.
   */
  method PutSections(buffer: array<Word>, count: nat, cs: seq<Section>) returns (count': nat, complete: bool)
    requires count + |SectionsWords(cs, |cs|).ws| <= buffer.Length
    modifies buffer
    ensures complete == SectionsWords(cs, |cs|).complete
    ensures count' == count + |SectionsWords(cs, |cs|).ws|
    ensures Holds(buffer, count, SectionsWords(cs, |cs|).ws)
    ensures forall k :: 0 <= k < buffer.Length && !(count <= k < count') ==> buffer[k] == old(buffer[k])
  {
    ghost var full := SectionsWords(cs, |cs|);
    SectionsWordsMonotone(cs, 0);
    count' := count;
    for i := 0 to |cs|
      invariant SectionsWords(cs, i).complete
      invariant count' == count + |SectionsWords(cs, i).ws| && |SectionsWords(cs, i).ws| <= |full.ws|
      invariant Holds(buffer, count, SectionsWords(cs, i).ws)
      invariant forall k :: 0 <= k < buffer.Length && !(count <= k < count') ==> buffer[k] == old(buffer[k])
    {
      SectionsWordsMonotone(cs, i + 1);
      SectionsWordsGrow(cs, i);
      if Rejects(cs[i]) {
        return count', false;
      }
      ghost var before := SectionsWords(cs, i).ws;
      ghost var snap := buffer[..];
      ghost var mid := count';
      count' := PutSection(buffer, count', cs[i]);
      HoldsKept(buffer, snap, count, before, mid);
      HoldsAppend(buffer, count, before, ExtentsWords(cs[i].extents, |cs[i].extents|));
    }
    complete := true;
  }

  lemma HoldsPrefix(buffer: array<Word>, w: seq<Word>)
    requires Holds(buffer, 0, w)
    ensures buffer[..|w|] == w
  {
  }

  /**
   * gfx_v10_0_get_csb_buffer. A missing table or buffer writes nothing; a
   * present one gets CsbStream at its start and nothing after it.
   */
  method GetCsbBuffer(csData: Option<seq<Section>>, buffer: array?<Word>,
                      tileSteeringReg: u32, tileSteering: u32)
    requires buffer != null && csData.Some? ==>
               |CsbStream(csData.value, tileSteeringReg, tileSteering)| <= buffer.Length
    modifies buffer
    ensures buffer != null && csData.None? ==> buffer[..] == old(buffer[..])
    ensures buffer != null && csData.Some? ==>
              var w := CsbStream(csData.value, tileSteeringReg, tileSteering);
              buffer[..|w|] == w &&
              forall k :: |w| <= k < buffer.Length ==> buffer[k] == old(buffer[k])
  {
    if csData.None? || buffer == null {
      return;
    }
    var cs := csData.value;
    ghost var w := CsbStream(cs, tileSteeringReg, tileSteering);
    ghost var b := SectionsWords(cs, |cs|).ws;
    var count := PutWords(buffer, 0, BeginWords());
    var complete;
    count, complete := PutSections(buffer, count, cs);
    HoldsAppend(buffer, 0, BeginWords(), b);
    if complete {
      count := PutWords(buffer, count, EndWords(tileSteeringReg, tileSteering));
      HoldsAppend(buffer, 0, BeginWords() + b, EndWords(tileSteeringReg, tileSteering));
    }
    HoldsPrefix(buffer, w);
  }
}
