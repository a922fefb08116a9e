/**
 The stream of a RAM migration (arch_init.c): what the sender writes for a page and
 what the loader makes of it.  Memory is a sequence of pages; a block is a named range
 of them.
 */
module RamStream {
  import opened Common
  import opened Bytes
  import Xbzrle

  const PAGE: nat := 4096

  const TWO64: nat := 0x1_0000_0000_0000_0000

  const FLAG_COMPRESS: nat := 0x02
  const FLAG_MEM_SIZE: nat := 0x04
  const FLAG_PAGE: nat := 0x08
  const FLAG_EOS: nat := 0x10
  const FLAG_CONTINUE: nat := 0x20
  const FLAG_XBZRLE: nat := 0x40
  const FLAG_HOOK: nat := 0x80

  const ENCODING_FLAG_XBZRLE: nat := 0x1

  type Memory = seq<seq<Byte>>

  datatype Block = Block(name: seq<Byte>, start: nat, pages: nat)

  /** The ranges are disjoint and within the memory, whose addresses fit 64 bits. */
  ghost predicate Layout(blocks: seq<Block>, cap: nat) {
    && |blocks| > 0 && cap * PAGE < TWO64
    && (forall b | 0 <= b < |blocks| :: blocks[b].pages > 0 && blocks[b].start + blocks[b].pages <= cap)
    && (forall b, c | 0 <= b < c < |blocks| ::
          blocks[b].start + blocks[b].pages <= blocks[c].start || blocks[c].start + blocks[c].pages <= blocks[b].start)
  }

  /** Names fit their length byte and each finds its own block. */
  ghost predicate Named(blocks: seq<Block>) {
    forall b | 0 <= b < |blocks| :: |blocks[b].name| <= 255 && FindBlock(blocks, blocks[b].name, 0) == Some(b)
  }

  ghost predicate Paged(mem: Memory, cap: nat) {
    |mem| == cap && forall p | 0 <= p < cap :: |mem[p]| == PAGE
  }

  /** A page of one byte. */
  function Filled(c: Byte): (r: seq<Byte>)
    ensures |r| == PAGE
  {
    seq(PAGE, _ => c)
  }

  // ---------------------------------------------------------------- sender

  /** How the contents of a page travel. */
  datatype Record = Zero | Full(data: seq<Byte>) | Delta(code: seq<Byte>)

  ghost predicate Sendable(rec: Record) {
    && (rec.Full? ==> |rec.data| == PAGE)
    && (rec.Delta? ==> |rec.code| <= PAGE)
  }

  function Flag(rec: Record): nat {
    match rec
    case Zero => FLAG_COMPRESS
    case Full(_) => FLAG_PAGE
    case Delta(_) => FLAG_XBZRLE
  }

  /** save_block_hdr */
  function Header(name: seq<Byte>, offset: nat, cont: bool, flag: nat): (r: seq<Byte>)
    requires |name| <= 255
    ensures |r| == if cont then 8 else 9 + |name|
  {
    var word := Be(offset * PAGE + (if cont then FLAG_CONTINUE else 0) + flag, 8);
    if cont then word else word + ([|name| as Byte] + name)
  }

  function Contents(rec: Record): seq<Byte>
    requires Sendable(rec)
  {
    match rec
    case Zero => [0]
    case Full(data) => data
    case Delta(code) => [ENCODING_FLAG_XBZRLE as Byte] + (Be(|code|, 2) + code)
  }

  function Emit(name: seq<Byte>, offset: nat, cont: bool, rec: Record): (r: seq<Byte>)
    requires |name| <= 255 && Sendable(rec)
    ensures |r| == |Header(name, offset, cont, Flag(rec))| + |Contents(rec)|
  {
    Header(name, offset, cont, Flag(rec)) + Contents(rec)
  }

  /** The bytes the sender accounts for a record are those it writes. */
  lemma EmitSize(name: seq<Byte>, offset: nat, cont: bool, rec: Record)
    requires |name| <= 255 && Sendable(rec)
    ensures |Emit(name, offset, cont, rec)| == 8 + (if cont then 0 else 1 + |name|)
         + (match rec case Zero => 1 case Full(_) => PAGE case Delta(code) => |code| + 1 + 2)
  {}

  /** The page a record stands for, over the contents the receiver has. */
  function Meaning(rec: Record, was: seq<Byte>): Option<seq<Byte>> {
    match rec
    case Zero => Some(Filled(0))
    case Full(data) => Some(data)
    case Delta(code) => Xbzrle.Decode(was, code)
  }

  // ---------------------------------------------------------------- loader

  predicate Has(flags: nat, flag: nat)
    requires flag > 0
  {
    (flags / flag) % 2 == 1
  }

  /** The first block of a name. */
  function FindBlock(blocks: seq<Block>, name: seq<Byte>, from: nat): (r: Option<nat>)
    requires from <= |blocks|
    ensures r.Some? ==> from <= r.value < |blocks| && blocks[r.value].name == name
    decreases |blocks| - from
  {
    if from == |blocks| then None
    else if blocks[from].name == name then Some(from)
    else FindBlock(blocks, name, from + 1)
  }

  datatype Host = NoHost | Host(at: nat, block: nat)

  /** host_from_stream_offset: the block meant by a header, and where the contents start. */
  function HostOf(blocks: seq<Block>, s: seq<Byte>, at: nat, flags: nat, current: Option<nat>): (r: Host)
    requires at <= |s| && (current.Some? ==> current.value < |blocks|)
    ensures r.Host? ==> at <= r.at <= |s| && r.block < |blocks|
  {
    if Has(flags, FLAG_CONTINUE) then
      if current.None? then NoHost else Host(at, current.value)
    else if at == |s| || at + 1 + s[at] as nat > |s| then NoHost
    else
      var end := at + 1 + s[at] as nat;
      match FindBlock(blocks, Part(s, at + 1, end), 0)
      case None => NoHost
      case Some(b) => Host(end, b)
  }

  datatype Body = BadBody | Body(at: nat, page: seq<Byte>)

  /** The new contents of a page, read from position `at` on. */
  function BodyOf(s: seq<Byte>, at: nat, flags: nat, was: seq<Byte>): (r: Body)
    requires at <= |s| && |was| == PAGE
    ensures r.Body? ==> at <= r.at <= |s| && |r.page| == PAGE
  {
    if Has(flags, FLAG_COMPRESS) then
      if at == |s| then BadBody else Body(at + 1, Filled(s[at]))
    else if Has(flags, FLAG_PAGE) then
      if at + PAGE > |s| then BadBody else Body(at + PAGE, Part(s, at, at + PAGE))
    else LoadXbzrle(s, at, was)
  }

  /** load_xbzrle */
  function LoadXbzrle(s: seq<Byte>, at: nat, was: seq<Byte>): (r: Body)
    requires at <= |s| && |was| == PAGE
    ensures r.Body? ==> at <= r.at <= |s| && |r.page| == PAGE
  {
    if at + 3 > |s| || s[at] as nat != ENCODING_FLAG_XBZRLE then BadBody
    else
      var len := UnBe(s, at + 1, 2);
      if len > PAGE || at + 3 + len > |s| then BadBody
      else
        match Xbzrle.Decode(was, Part(s, at + 3, at + 3 + len))
        case None => BadBody
        case Some(page) => Body(at + 3 + len, page)
  }

  datatype LoadState = LoadState(mem: Memory, block: Option<nat>)

  ghost predicate Loadable(blocks: seq<Block>, cap: nat, st: LoadState) {
    Layout(blocks, cap) && Paged(st.mem, cap) && (st.block.Some? ==> st.block.value < |blocks|)
  }

  datatype Loaded = Failed | Loaded(at: nat, state: LoadState, eos: bool)

  /** Subtraction in 64 bits. */
  function Less64(a: nat, b: nat): (r: nat)
    ensures b <= a < TWO64 ==> r == a - b
  {
    (a - b) % TWO64
  }

  /** The block list of the setup section: every block of the sender must be known with the same length.
      The result is the position behind the list. */
  function BlockList(blocks: seq<Block>, s: seq<Byte>, at: nat, total: nat): (r: Option<nat>)
    requires at <= |s|
    ensures r.Some? ==> at <= r.value <= |s|
    decreases |s| - at
  {
    if total == 0 then Some(at)
    else if at == |s| || at + 9 + s[at] as nat > |s| then None
    else
      var mid := at + 1 + s[at] as nat;
      var length := UnBe(s, mid, 8);
      match FindBlock(blocks, Part(s, at + 1, mid), 0)
      case None => None
      case Some(b) =>
        if blocks[b].pages * PAGE != length then None
        else BlockList(blocks, s, mid + 8, Less64(total, length))
  }

  /** The page of a record, if its flags announce one.  A hook fails, since none is installed; so does an
      offset outside the block. */
  function LoadPage(blocks: seq<Block>, ghost cap: nat, s: seq<Byte>, at: nat, st: LoadState, flags: nat, offset: nat)
    : (r: Loaded)
    requires Loadable(blocks, cap, st) && at <= |s|
    ensures r.Loaded? ==> at <= r.at <= |s| && Loadable(blocks, cap, r.state)
  {
    if !Has(flags, FLAG_COMPRESS) && !Has(flags, FLAG_PAGE) && !Has(flags, FLAG_XBZRLE) then
      if Has(flags, FLAG_HOOK) then Failed else Loaded(at, st, Has(flags, FLAG_EOS))
    else
      var host := HostOf(blocks, s, at, flags, st.block);
      if host.NoHost? || offset >= blocks[host.block].pages then Failed
      else
        var p := blocks[host.block].start + offset;
        match BodyOf(s, host.at, flags, st.mem[p])
        case BadBody => Failed
        case Body(end, page) => Loaded(end, LoadState(st.mem[p := page], Some(host.block)), Has(flags, FLAG_EOS))
  }

  /** One round of ram_load. */
  function LoadRecord(blocks: seq<Block>, ghost cap: nat, s: seq<Byte>, at: nat, st: LoadState): (r: Loaded)
    requires Loadable(blocks, cap, st) && at <= |s|
    ensures r.Loaded? ==> at + 8 <= r.at <= |s| && Loadable(blocks, cap, r.state)
  {
    if at + 8 > |s| then Failed
    else
      var flags, offset := UnBe(s, at, 8) % PAGE, UnBe(s, at, 8) / PAGE;
      if Has(flags, FLAG_MEM_SIZE) then
        match BlockList(blocks, s, at + 8, offset * PAGE)
        case None => Failed
        case Some(mid) => LoadPage(blocks, cap, s, mid, st, flags, offset)
      else LoadPage(blocks, cap, s, at + 8, st, flags, offset)
  }

  /** Everything from `at` to the end of the stream. */
  function Load(blocks: seq<Block>, ghost cap: nat, s: seq<Byte>, at: nat, st: LoadState): (r: Option<LoadState>)
    requires Loadable(blocks, cap, st) && at <= |s|
    ensures r.Some? ==> Loadable(blocks, cap, r.value)
    decreases |s| - at
  {
    if at == |s| then Some(st)
    else
      match LoadRecord(blocks, cap, s, at, st)
      case Failed => None
      case Loaded(at', st', _) => Load(blocks, cap, s, at', st')
  }

  // ---------------------------------------------------------------- a record is loaded as it was sent

  lemma {:induction false} FindOwn(blocks: seq<Block>, b: nat, from: nat)
    requires from <= b < |blocks|
    requires forall c | 0 <= c < b :: blocks[c].name != blocks[b].name
    ensures FindBlock(blocks, blocks[b].name, from) == Some(b)
    decreases b - from
  {
    if from < b { FindOwn(blocks, b, from + 1); }
  }

  /** Names find their blocks exactly when they are distinct. */
  lemma NamedIffDistinct(blocks: seq<Block>)
    ensures Named(blocks) <==>
      && (forall b | 0 <= b < |blocks| :: |blocks[b].name| <= 255)
      && (forall b, c | 0 <= b < c < |blocks| :: blocks[b].name != blocks[c].name)
  {
    if forall b, c | 0 <= b < c < |blocks| :: blocks[b].name != blocks[c].name {
      forall b | 0 <= b < |blocks| ensures FindBlock(blocks, blocks[b].name, 0) == Some(b) {
        FindOwn(blocks, b, 0);
      }
    }
  }

  lemma HeaderWord(s: seq<Byte>, at: nat, offset: nat, f: nat)
    requires f < PAGE && offset * PAGE + f < TWO64 && At(s, at, Be(offset * PAGE + f, 8))
    ensures UnBe(s, at, 8) % PAGE == f && UnBe(s, at, 8) / PAGE == offset
  {
    Pow256Values();
    BeRoundTrip(s, at, offset * PAGE + f, 8);
    DivUnique(offset * PAGE + f, PAGE, offset, f);
  }

  /** The loader finds the sender's block, by name or because it is the current one. */
  lemma HostFound(blocks: seq<Block>, s: seq<Byte>, at: nat, flags: nat, current: Option<nat>, b: nat)
    requires Named(blocks) && b < |blocks| && at <= |s| && (current.Some? ==> current.value < |blocks|)
    requires Has(flags, FLAG_CONTINUE) <==> current == Some(b)
    requires current != Some(b) ==> At(s, at, [|blocks[b].name| as Byte] + blocks[b].name)
    ensures HostOf(blocks, s, at, flags, current)
         == Host(if current == Some(b) then at else at + 1 + |blocks[b].name|, b)
  {
    if current != Some(b) {
      var name := blocks[b].name;
      AtSplit(s, at, [|name| as Byte], name);
      ByteAt(s, at, |name| as Byte);
      AtPart(s, at + 1, name);
    }
  }

  lemma DeltaFound(s: seq<Byte>, at: nat, code: seq<Byte>, was: seq<Byte>, page: seq<Byte>)
    requires |code| <= PAGE && |was| == PAGE && Xbzrle.Decode(was, code) == Some(page)
    requires At(s, at, Contents(Delta(code)))
    ensures LoadXbzrle(s, at, was) == Body(at + 3 + |code|, page)
  {
    AtSplit(s, at, [ENCODING_FLAG_XBZRLE as Byte], Be(|code|, 2) + code);
    ByteAt(s, at, ENCODING_FLAG_XBZRLE as Byte);
    AtSplit(s, at + 1, Be(|code|, 2), code);
    Pow256Values();
    BeRoundTrip(s, at + 1, |code|, 2);
    AtPart(s, at + 3, code);
  }

  lemma BodyFound(s: seq<Byte>, at: nat, flags: nat, rec: Record, was: seq<Byte>, page: seq<Byte>)
    requires Sendable(rec) && |was| == PAGE && Meaning(rec, was) == Some(page)
    requires At(s, at, Contents(rec))
    requires flags == Flag(rec) || flags == Flag(rec) + FLAG_CONTINUE
    ensures BodyOf(s, at, flags, was) == Body(at + |Contents(rec)|, page)
  {
    match rec
    case Zero => ByteAt(s, at, 0);
    case Full(data) => AtPart(s, at, data);
    case Delta(code) => DeltaFound(s, at, code, was, page);
  }

  function Flags(rec: Record, cont: bool): (f: nat)
    ensures f < PAGE && !Has(f, FLAG_MEM_SIZE) && !Has(f, FLAG_HOOK) && !Has(f, FLAG_EOS)
    ensures Has(f, FLAG_COMPRESS) || Has(f, FLAG_PAGE) || Has(f, FLAG_XBZRLE)
    ensures Has(f, FLAG_CONTINUE) <==> cont
  {
    (if cont then FLAG_CONTINUE else 0) + Flag(rec)
  }

  /** The parts of a header: the word with the flags and, without the flag for the same block, the
      name. */
  lemma HeaderParts(s: seq<Byte>, at: nat, name: seq<Byte>, offset: nat, cont: bool, rec: Record)
    requires |name| <= 255 && At(s, at, Header(name, offset, cont, Flag(rec)))
    requires offset * PAGE + PAGE <= TWO64
    ensures UnBe(s, at, 8) % PAGE == Flags(rec, cont) && UnBe(s, at, 8) / PAGE == offset
    ensures !cont ==> At(s, at + 8, [|name| as Byte] + name)
  {
    var f := Flags(rec, cont);
    HeaderSplit(s, at, name, offset * PAGE + f, cont);
    HeaderWord(s, at, offset, f);
  }

  lemma HeaderSplit(s: seq<Byte>, at: nat, name: seq<Byte>, word: nat, cont: bool)
    requires |name| <= 255
    requires At(s, at, if cont then Be(word, 8) else Be(word, 8) + ([|name| as Byte] + name))
    ensures At(s, at, Be(word, 8)) && (!cont ==> At(s, at + 8, [|name| as Byte] + name))
  {
    if !cont {
      AtSplit(s, at, Be(word, 8), [|name| as Byte] + name);
    }
  }

  lemma HeaderFound(blocks: seq<Block>, cap: nat, s: seq<Byte>, at: nat, st: LoadState, b: nat, offset: nat,
                    rec: Record)
    requires Loadable(blocks, cap, st) && Named(blocks) && b < |blocks| && offset < blocks[b].pages
    requires At(s, at, Header(blocks[b].name, offset, st.block == Some(b), Flag(rec)))
    ensures var f, cont := Flags(rec, st.block == Some(b)), st.block == Some(b);
      && UnBe(s, at, 8) % PAGE == f && UnBe(s, at, 8) / PAGE == offset
      && HostOf(blocks, s, at + 8, f, st.block) == Host(at + |Header(blocks[b].name, offset, cont, Flag(rec))|, b)
  {
    assert offset * PAGE + PAGE <= cap * PAGE;
    HeaderParts(s, at, blocks[b].name, offset, st.block == Some(b), rec);
    HostFound(blocks, s, at + 8, Flags(rec, st.block == Some(b)), st.block, b);
  }

  /** The loader's steps put together. */
  lemma RecordLoaded(blocks: seq<Block>, cap: nat, s: seq<Byte>, at: nat, st: LoadState, f: nat, offset: nat,
                     b: nat, mid: nat, end: nat, page: seq<Byte>, next: LoadState)
    requires Loadable(blocks, cap, st) && at + 8 <= mid <= |s| && b < |blocks| && offset < blocks[b].pages
    requires UnBe(s, at, 8) % PAGE == f && UnBe(s, at, 8) / PAGE == offset
    requires !Has(f, FLAG_MEM_SIZE) && !Has(f, FLAG_HOOK) && !Has(f, FLAG_EOS)
    requires Has(f, FLAG_COMPRESS) || Has(f, FLAG_PAGE) || Has(f, FLAG_XBZRLE)
    requires HostOf(blocks, s, at + 8, f, st.block) == Host(mid, b)
    requires BodyOf(s, mid, f, st.mem[blocks[b].start + offset]) == Body(end, page)
    requires next == LoadState(st.mem[blocks[b].start + offset := page], Some(b))
    ensures LoadRecord(blocks, cap, s, at, st) == Loaded(end, next, false)
  {}

  lemma EmittedHead(blocks: seq<Block>, cap: nat, s: seq<Byte>, at: nat, st: LoadState, b: nat, offset: nat,
                    rec: Record, mid: nat)
    requires Loadable(blocks, cap, st) && Named(blocks) && b < |blocks| && offset < blocks[b].pages && Sendable(rec)
    requires At(s, at, Emit(blocks[b].name, offset, st.block == Some(b), rec))
    requires mid == at + |Header(blocks[b].name, offset, st.block == Some(b), Flag(rec))|
    ensures UnBe(s, at, 8) % PAGE == Flags(rec, st.block == Some(b)) && UnBe(s, at, 8) / PAGE == offset
    ensures HostOf(blocks, s, at + 8, Flags(rec, st.block == Some(b)), st.block) == Host(mid, b)
  {
    AtSplit(s, at, Header(blocks[b].name, offset, st.block == Some(b), Flag(rec)), Contents(rec));
    HeaderFound(blocks, cap, s, at, st, b, offset, rec);
  }

  lemma EmittedBody(name: seq<Byte>, s: seq<Byte>, at: nat, cont: bool, offset: nat, rec: Record,
                    was: seq<Byte>, page: seq<Byte>, mid: nat)
    requires |name| <= 255 && Sendable(rec) && |was| == PAGE && Meaning(rec, was) == Some(page)
    requires At(s, at, Emit(name, offset, cont, rec))
    requires mid == at + |Header(name, offset, cont, Flag(rec))|
    ensures BodyOf(s, mid, Flags(rec, cont), was) == Body(at + |Emit(name, offset, cont, rec)|, page)
  {
    AtSplit(s, at, Header(name, offset, cont, Flag(rec)), Contents(rec));
    BodyFound(s, mid, Flags(rec, cont), rec, was, page);
  }

  /** What is read at a position where a record was written. */
  lemma LoadEmitted(blocks: seq<Block>, cap: nat, s: seq<Byte>, at: nat, st: LoadState,
                    b: nat, offset: nat, rec: Record, page: seq<Byte>, end: nat, next: LoadState)
    requires Loadable(blocks, cap, st) && Named(blocks) && b < |blocks| && offset < blocks[b].pages && Sendable(rec)
    requires Meaning(rec, st.mem[blocks[b].start + offset]) == Some(page)
    requires At(s, at, Emit(blocks[b].name, offset, st.block == Some(b), rec))
    requires end == at + |Emit(blocks[b].name, offset, st.block == Some(b), rec)|
    requires next == LoadState(st.mem[blocks[b].start + offset := page], Some(b))
    ensures LoadRecord(blocks, cap, s, at, st) == Loaded(end, next, false)
  {
    var cont := st.block == Some(b);
    var mid := at + |Header(blocks[b].name, offset, cont, Flag(rec))|;
    EmittedHead(blocks, cap, s, at, st, b, offset, rec, mid);
    EmittedBody(blocks[b].name, s, at, cont, offset, rec, st.mem[blocks[b].start + offset], page, mid);
    RecordLoaded(blocks, cap, s, at, st, Flags(rec, cont), offset, b, mid, end, page, next);
  }

  /** The end of a section changes nothing. */
  lemma LoadEos(blocks: seq<Block>, cap: nat, s: seq<Byte>, at: nat, st: LoadState)
    requires Loadable(blocks, cap, st) && At(s, at, Be(FLAG_EOS, 8))
    ensures LoadRecord(blocks, cap, s, at, st) == Loaded(at + 8, st, true)
  {
    LoadMark(blocks, cap, s, at, st, FLAG_EOS);
  }

  /** A word of flags that announces nothing. */
  lemma LoadMark(blocks: seq<Block>, cap: nat, s: seq<Byte>, at: nat, st: LoadState, f: nat)
    requires Loadable(blocks, cap, st) && f < PAGE && At(s, at, Be(f, 8))
    requires !Has(f, FLAG_MEM_SIZE) && !Has(f, FLAG_HOOK)
    requires !Has(f, FLAG_COMPRESS) && !Has(f, FLAG_PAGE) && !Has(f, FLAG_XBZRLE)
    ensures LoadRecord(blocks, cap, s, at, st) == Loaded(at + 8, st, Has(f, FLAG_EOS))
  {
    HeaderWord(s, at, 0, f);
  }

  // ---------------------------------------------------------------- a growing stream

  lemma HostExtend(blocks: seq<Block>, s: seq<Byte>, t: seq<Byte>, at: nat, flags: nat, current: Option<nat>)
    requires At(t, 0, s) && at <= |s| && (current.Some? ==> current.value < |blocks|)
    requires HostOf(blocks, s, at, flags, current).Host?
    ensures HostOf(blocks, t, at, flags, current) == HostOf(blocks, s, at, flags, current)
  {
    if !Has(flags, FLAG_CONTINUE) {
      assert t[0 + at] == s[at];
      PartExtend(s, t, at + 1, at + 1 + s[at] as nat);
    }
  }

  lemma BodyExtend(s: seq<Byte>, t: seq<Byte>, at: nat, flags: nat, was: seq<Byte>)
    requires At(t, 0, s) && at <= |s| && |was| == PAGE && BodyOf(s, at, flags, was).Body?
    ensures BodyOf(t, at, flags, was) == BodyOf(s, at, flags, was)
  {
    if Has(flags, FLAG_COMPRESS) {
      assert t[0 + at] == s[at];
    } else if Has(flags, FLAG_PAGE) {
      PartExtend(s, t, at, at + PAGE);
    } else {
      assert t[0 + at] == s[at];
      UnBeExtend(s, t, at + 1, 2);
      PartExtend(s, t, at + 3, at + 3 + UnBe(s, at + 1, 2));
    }
  }

  lemma EntryExtend(s: seq<Byte>, t: seq<Byte>, at: nat, mid: nat)
    requires At(t, 0, s) && at < mid && mid + 8 <= |s|
    ensures t[at] == s[at] && Part(t, at + 1, mid) == Part(s, at + 1, mid) && UnBe(t, mid, 8) == UnBe(s, mid, 8)
  {
    assert t[0 + at] == s[at];
    PartExtend(s, t, at + 1, mid);
    UnBeExtend(s, t, mid, 8);
  }

  lemma {:induction false} ListExtend(blocks: seq<Block>, s: seq<Byte>, t: seq<Byte>, at: nat, total: nat)
    requires At(t, 0, s) && |s| <= |t| && at <= |s| && BlockList(blocks, s, at, total).Some?
    ensures BlockList(blocks, t, at, total) == BlockList(blocks, s, at, total)
    decreases |s| - at
  {
    if total > 0 {
      var mid := at + 1 + s[at] as nat;
      EntryExtend(s, t, at, mid);
      ListExtend(blocks, s, t, mid + 8, Less64(total, UnBe(s, mid, 8)));
    }
  }

  lemma PageExtend(blocks: seq<Block>, cap: nat, s: seq<Byte>, t: seq<Byte>, at: nat, st: LoadState, flags: nat,
                   offset: nat)
    requires Loadable(blocks, cap, st) && At(t, 0, s) && at <= |s|
    requires LoadPage(blocks, cap, s, at, st, flags, offset).Loaded?
    ensures LoadPage(blocks, cap, t, at, st, flags, offset) == LoadPage(blocks, cap, s, at, st, flags, offset)
  {
    if Has(flags, FLAG_COMPRESS) || Has(flags, FLAG_PAGE) || Has(flags, FLAG_XBZRLE) {
      HostExtend(blocks, s, t, at, flags, st.block);
      var host := HostOf(blocks, s, at, flags, st.block);
      BodyExtend(s, t, host.at, flags, st.mem[blocks[host.block].start + offset]);
    }
  }

  lemma RecordExtend(blocks: seq<Block>, cap: nat, s: seq<Byte>, t: seq<Byte>, at: nat, st: LoadState)
    requires Loadable(blocks, cap, st) && At(t, 0, s) && at <= |s|
    requires LoadRecord(blocks, cap, s, at, st).Loaded?
    ensures LoadRecord(blocks, cap, t, at, st) == LoadRecord(blocks, cap, s, at, st)
  {
    UnBeExtend(s, t, at, 8);
    var flags, offset := UnBe(s, at, 8) % PAGE, UnBe(s, at, 8) / PAGE;
    var mid := at + 8;
    if Has(flags, FLAG_MEM_SIZE) {
      ListExtend(blocks, s, t, at + 8, offset * PAGE);
      mid := BlockList(blocks, s, at + 8, offset * PAGE).value;
    }
    PageExtend(blocks, cap, s, t, mid, st, flags, offset);
  }

  /** A loader that has consumed a stream goes on from where it stands when the stream
      grows. */
  lemma {:induction false} LoadExtend(blocks: seq<Block>, cap: nat, s: seq<Byte>, t: seq<Byte>, at: nat, st: LoadState)
    requires Loadable(blocks, cap, st) && At(t, 0, s) && at <= |s|
    requires Load(blocks, cap, s, at, st).Some?
    ensures Load(blocks, cap, t, at, st) == Load(blocks, cap, t, |s|, Load(blocks, cap, s, at, st).value)
    decreases |s| - at
  {
    if at < |s| {
      RecordExtend(blocks, cap, s, t, at, st);
      var r := LoadRecord(blocks, cap, s, at, st);
      LoadExtend(blocks, cap, s, t, r.at, r.state);
    }
  }

  /** A loader that starts in state `first` and consumes the stream ends in state `st`. */
  ghost predicate Received(blocks: seq<Block>, cap: nat, s: seq<Byte>, first: LoadState, st: LoadState) {
    Loadable(blocks, cap, first) && Load(blocks, cap, s, 0, first) == Some(st)
  }

  lemma LoadLast(blocks: seq<Block>, cap: nat, s: seq<Byte>, at: nat, st: LoadState, next: LoadState)
    requires Loadable(blocks, cap, st) && at < |s| && LoadRecord(blocks, cap, s, at, st).Loaded?
    requires LoadRecord(blocks, cap, s, at, st).at == |s| && LoadRecord(blocks, cap, s, at, st).state == next
    ensures Load(blocks, cap, s, at, st) == Some(next)
  {}

  /** Appending a record appends its effect. */
  lemma SendPage(blocks: seq<Block>, cap: nat, s: seq<Byte>, t: seq<Byte>, first: LoadState, st: LoadState,
                 b: nat, offset: nat, rec: Record, page: seq<Byte>, next: LoadState)
    requires Received(blocks, cap, s, first, st) && Named(blocks)
    requires b < |blocks| && offset < blocks[b].pages && Sendable(rec)
    requires Meaning(rec, st.mem[blocks[b].start + offset]) == Some(page)
    requires next == LoadState(st.mem[blocks[b].start + offset := page], Some(b))
    requires t == s + Emit(blocks[b].name, offset, st.block == Some(b), rec)
    ensures Received(blocks, cap, t, first, next)
  {
    AtAppend(s, Emit(blocks[b].name, offset, st.block == Some(b), rec));
    LoadExtend(blocks, cap, s, t, 0, first);
    LoadEmitted(blocks, cap, t, |s|, st, b, offset, rec, page, |t|, next);
    LoadLast(blocks, cap, t, |s|, st, next);
  }

  /** Ending a section leaves the receiver as it is. */
  lemma SendEos(blocks: seq<Block>, cap: nat, s: seq<Byte>, t: seq<Byte>, first: LoadState, st: LoadState)
    requires Received(blocks, cap, s, first, st) && t == s + Be(FLAG_EOS, 8)
    ensures Received(blocks, cap, t, first, st)
  {
    AtAppend(s, Be(FLAG_EOS, 8));
    LoadExtend(blocks, cap, s, t, 0, first);
    LoadEos(blocks, cap, t, |s|, st);
    LoadLast(blocks, cap, t, |s|, st, st);
  }

  // ---------------------------------------------------------------- sections

  /** ram_load: the records up to the end of a section. */
  function Section(blocks: seq<Block>, ghost cap: nat, s: seq<Byte>, at: nat, st: LoadState): (r: Loaded)
    requires Loadable(blocks, cap, st) && at <= |s|
    ensures r.Loaded? ==> at < r.at <= |s| && r.eos && Loadable(blocks, cap, r.state)
    decreases |s| - at
  {
    match LoadRecord(blocks, cap, s, at, st)
    case Failed => Failed
    case Loaded(at', st', eos) => if eos then Loaded(at', st', true) else Section(blocks, cap, s, at', st')
  }

  /** Consuming a stream is loading its sections one after the other. */
  lemma {:induction false} LoadBySections(blocks: seq<Block>, cap: nat, s: seq<Byte>, at: nat, st: LoadState)
    requires Loadable(blocks, cap, st) && at <= |s| && Section(blocks, cap, s, at, st).Loaded?
    ensures var r := Section(blocks, cap, s, at, st);
      Load(blocks, cap, s, at, st) == Load(blocks, cap, s, r.at, r.state)
    decreases |s| - at
  {
    var one := LoadRecord(blocks, cap, s, at, st);
    if !one.eos {
      LoadBySections(blocks, cap, s, one.at, one.state);
    }
  }
}
