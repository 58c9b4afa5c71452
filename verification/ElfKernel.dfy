// elf_load_ex as it runs: nested loops over program headers and pages, zeroing a frame and
// copying into it.
module ElfKernel {
  import opened Basics
  import opened Elf

  // The body of the page loop: a zeroed frame, then the part of the file that falls into it.
  method FillFrame(img: seq<Byte>, s: Seg, v: nat) returns (page: Page)
    requires GoodSeg(img, s)
    ensures page == PageOf(img, s, v)
  {
    var frame := new Byte[PAGE](i => 0);
    var base := v * PAGE;
    var lo := if base > s.vaddr then base else s.vaddr;
    var hi := if base + PAGE < s.vaddr + s.filesz then base + PAGE else s.vaddr + s.filesz;
    if lo < hi {
      var k := 0;
      while k < hi - lo
        invariant 0 <= k <= hi - lo
        invariant forall x: nat | x < PAGE ::
                    frame[x] == if lo - base <= x < lo - base + k then img[s.offset + (base + x - s.vaddr)] else 0
      {
        frame[lo - base + k] := img[s.offset + (lo - s.vaddr) + k];
        k := k + 1;
      }
    }
    page := frame[..];
    assert forall x: nat | x < PAGE :: page[x] == FlatByte(img, s, base + x);
    assert page == PageOf(img, s, v);
  }

  class Loader {
    var pages: Space
    var asked: nat

    // map_user_page followed by the copy: one request for memory, one page mapped.
    method MapPage(v: nat, page: Page, mem: Memory) returns (ok: bool)
      modifies this
      ensures ok == mem(old(asked)) && asked == old(asked) + 1
      ensures pages == if ok then old(pages)[v := page] else old(pages)
    {
      ok := mem(asked);
      asked := asked + 1;
      if ok {
        pages := pages[v := page];
      }
    }

    // The page loop of one segment.
    method MapSegment(img: seq<Byte>, s: Seg, mem: Memory) returns (rc: int)
      requires GoodSeg(img, s)
      modifies this
      ensures Out(pages, asked, rc) == LoadPages(old(pages), img, s, FirstPage(s), mem, old(asked))
    {
      hide PageOf;
      var v := FirstPage(s);
      while v < EndPage(s)
        invariant LoadPages(pages, img, s, v, mem, asked)
                    == LoadPages(old(pages), img, s, FirstPage(s), mem, old(asked))
      {
        var page := FillFrame(img, s, v);
        var ok := MapPage(v, page, mem);
        if !ok {
          return ENOMEM;
        }
        v := v + 1;
      }
      return 0;
    }

    // elf_load_ex
    method LoadElf(img: seq<Byte>, stack: nat, mem: Memory) returns (rc: int, entry: nat)
      requires asked == 0
      modifies this
      ensures Out(pages, asked, rc) == Load(old(pages), img, stack, mem)
      ensures rc > 0 ==> |img| >= EHDR && entry == U32(img, 24)
    {
      hide LoadPages, PageOf, U16, U32;
      entry := 0;
      rc := HeaderRc(img, stack);
      if rc != 0 {
        return;
      }
      var segs := 0;
      var i := 0;
      while i < Count(img)
        invariant 0 <= i <= Count(img) && segs >= 0
        invariant LoadSegs(pages, img, i, segs, mem, asked) == LoadSegs(old(pages), img, 0, 0, mem, 0)
      {
        var s := Phdr(img, i);
        if s.kind == PT_LOAD {
          if s.memsz < s.filesz || s.offset > |img| || s.offset + s.filesz > |img| {
            return EFAULT, 0;
          }
          if s.vaddr < 0x1000 || s.vaddr + s.memsz > USER_LIMIT {
            return EFAULT, 0;
          }
          MapFails(pages, img, s, mem, asked);
          rc := MapSegment(img, s, mem);
          if rc != 0 {
            return;
          }
          segs := segs + 1;
        }
        i := i + 1;
      }
      if segs == 0 {
        return ENOEXEC, 0;
      }
      var ok := MapPage(stack / PAGE, Zero(), mem);
      if !ok {
        return ENOMEM, 0;
      }
      return segs, U32(img, 24);
    }
  }

  lemma MapFails(sp: Space, img: seq<Byte>, s: Seg, mem: Memory, asked: nat)
    requires GoodSeg(img, s)
    ensures LoadPages(sp, img, s, FirstPage(s), mem, asked).rc <= 0
  {
    LoadPagesMeans(sp, img, s, FirstPage(s), mem, asked, 0);
  }
}
