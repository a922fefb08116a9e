/** The loader of a RAM migration as the source has it: it reads the stream in place. */
module RamLoader {
  import opened Common
  import opened Bytes
  import opened RamStream
  import Xbzrle

  class Loader {
    const blocks: seq<Block>
    const input: seq<Byte>
    ghost const cap: nat
    var mem: Memory
    var block: Option<nat>
    var pos: nat

    ghost predicate Valid()
      reads this
    {
      pos <= |input| && Loadable(blocks, cap, LoadState(mem, block))
    }

    constructor (blocks: seq<Block>, input: seq<Byte>, mem: Memory)
      requires Layout(blocks, |mem|) && Paged(mem, |mem|)
      ensures Valid() && this.blocks == blocks && this.input == input && cap == |mem|
      ensures this.mem == mem && block == None && pos == 0
    {
      this.blocks, this.input, this.cap := blocks, input, |mem|;
      this.mem, this.block, this.pos := mem, None, 0;
    }

    /** host_from_stream_offset */
    method HostFromStream(flags: nat) returns (found: bool)
      requires Valid()
      modifies `block, `pos
      ensures Valid()
      ensures match HostOf(blocks, input, old(pos), flags, old(block)) {
        case NoHost => !found
        case Host(at, b) => found && pos == at && block == Some(b)
      }
    {
      if Has(flags, FLAG_CONTINUE) {
        return block.Some?;
      }
      if pos == |input| || pos + 1 + input[pos] as nat > |input| {
        return false;
      }
      var end := pos + 1 + input[pos] as nat;
      var id := Part(input, pos + 1, end);
      pos := end;
      var b := FindId(id);
      found := b < |blocks|;
      block := if found then Some(b) else None;
    }

    /** The contents of one page, written over the old ones. */
    method LoadBody(flags: nat, p: nat) returns (ok: bool)
      requires Valid() && p < |mem|
      modifies `mem, `pos
      ensures Valid()
      ensures match BodyOf(input, old(pos), flags, old(mem[p])) {
        case BadBody => !ok
        case Body(at, page) => ok && pos == at && mem == old(mem)[p := page]
      }
    {
      if Has(flags, FLAG_COMPRESS) {
        if pos == |input| {
          return false;
        }
        mem := mem[p := Filled(input[pos])];
        pos := pos + 1;
        return true;
      }
      if Has(flags, FLAG_PAGE) {
        if pos + PAGE > |input| {
          return false;
        }
        mem := mem[p := Part(input, pos, pos + PAGE)];
        pos := pos + PAGE;
        return true;
      }
      if pos + 3 > |input| || input[pos] as nat != ENCODING_FLAG_XBZRLE {
        return false;
      }
      var len := UnBe(input, pos + 1, 2);
      if len > PAGE || pos + 3 + len > |input| {
        return false;
      }
      var page := Xbzrle.DecodeBuffer(Part(input, pos + 3, pos + 3 + len), mem[p]);
      if page.None? {
        return false;
      }
      mem := mem[p := page.value];
      pos := pos + 3 + len;
      ok := true;
    }

    /** The block list of the sender is compared with ours. */
    method CheckBlocks(bytes: nat) returns (ok: bool)
      requires Valid()
      modifies `pos
      ensures Valid() && old(pos) <= pos
      ensures BlockList(blocks, input, old(pos), bytes) == if ok then Some(pos) else None
    {
      var total := bytes;
      while total != 0
        invariant Valid() && old(pos) <= pos
        invariant BlockList(blocks, input, pos, total) == BlockList(blocks, input, old(pos), bytes)
        decreases |input| - pos
      {
        if pos == |input| || pos + 9 + input[pos] as nat > |input| {
          return false;
        }
        var mid := pos + 1 + input[pos] as nat;
        var id, length := Part(input, pos + 1, mid), UnBe(input, mid, 8);
        var b := FindId(id);
        if b == |blocks| || blocks[b].pages * PAGE != length {
          return false;
        }
        pos, total := mid + 8, Less64(total, length);
      }
      ok := true;
    }

    /** The first block of a name, or the number of blocks. */
    method FindId(id: seq<Byte>) returns (b: nat)
      ensures b <= |blocks| && FindBlock(blocks, id, 0) == if b < |blocks| then Some(b) else None
    {
      b := 0;
      while b < |blocks| && blocks[b].name != id
        invariant 0 <= b <= |blocks|
        invariant FindBlock(blocks, id, 0) == FindBlock(blocks, id, b)
      {
        b := b + 1;
      }
    }

    /** The page of a record, if its flags announce one. */
    method LoadPage(flags: nat, offset: nat) returns (ok: bool)
      requires Valid()
      modifies `mem, `block, `pos
      ensures Valid()
      ensures match RamStream.LoadPage(blocks, cap, input, old(pos), LoadState(old(mem), old(block)), flags, offset) {
        case Failed => !ok
        case Loaded(at, st, _) => ok && pos == at && st == LoadState(mem, block)
      }
    {
      if Has(flags, FLAG_COMPRESS) || Has(flags, FLAG_PAGE) || Has(flags, FLAG_XBZRLE) {
        ok := HostFromStream(flags);
        if !ok || offset >= blocks[block.value].pages {
          return false;
        }
        ok := LoadBody(flags, blocks[block.value].start + offset);
      } else {
        ok := !Has(flags, FLAG_HOOK);
      }
    }

    /** One round of the loop of ram_load. */
    method LoadOne() returns (ok: bool, eos: bool)
      requires Valid()
      modifies `mem, `block, `pos
      ensures Valid()
      ensures match LoadRecord(blocks, cap, input, old(pos), LoadState(old(mem), old(block))) {
        case Failed => !ok
        case Loaded(at, st, end) => ok && pos == at && st == LoadState(mem, block) && eos == end
      }
      ensures old(pos) == |input| ==> pos == old(pos) && mem == old(mem) && block == old(block)
    {
      if pos + 8 > |input| {
        return false, false;
      }
      var flags, offset := UnBe(input, pos, 8) % PAGE, UnBe(input, pos, 8) / PAGE;
      pos := pos + 8;
      eos := Has(flags, FLAG_EOS);
      if Has(flags, FLAG_MEM_SIZE) {
        ok := CheckBlocks(offset * PAGE);
        if !ok {
          return;
        }
      }
      ok := LoadPage(flags, offset);
    }

    /** What is left of the stream, loaded in the state reached so far. */
    ghost function Outcome(): Option<LoadState>
      requires Valid()
      reads this
    {
      Load(blocks, cap, input, pos, LoadState(mem, block))
    }

    /** ram_load: up to the end of the section. */
    method LoadSection() returns (ok: bool)
      requires Valid()
      modifies `mem, `block, `pos
      ensures Valid()
      ensures match Section(blocks, cap, input, old(pos), LoadState(old(mem), old(block))) {
        case Failed => !ok
        case Loaded(at, st, _) => ok && pos == at && st == LoadState(mem, block)
      }
      ensures ok ==> Outcome() == old(Outcome())
      ensures !ok && old(Outcome()).Some? ==> pos == |input| && old(Outcome()) == Some(LoadState(mem, block))
    {
      ghost var whole := Section(blocks, cap, input, pos, LoadState(mem, block));
      var eos := false;
      while !eos
        invariant Valid() && Outcome() == old(Outcome())
        invariant eos ==> whole == Loaded(pos, LoadState(mem, block), true)
        invariant !eos ==> whole == Section(blocks, cap, input, pos, LoadState(mem, block))
        decreases if eos then 0 else 1, |input| - pos
      {
        ok, eos := LoadOne();
        if !ok {
          return false;
        }
      }
      ok := true;
    }

    /** The whole stream, section by section.  If its records can be loaded, the loader
        ends with their effect, even if the last section was cut off after a record. */
    method Receive() returns (ok: bool)
      requires Valid()
      modifies `mem, `block, `pos
      ensures Valid()
      ensures ok ==> old(Outcome()).Some?
      ensures old(Outcome()).Some? ==> pos == |input| && old(Outcome()) == Some(LoadState(mem, block))
    {
      while pos < |input|
        invariant Valid() && Outcome() == old(Outcome())
        decreases |input| - pos
      {
        ok := LoadSection();
        if !ok {
          return;
        }
      }
      ok := true;
    }
  }
}
