// The ELF loader of kernel/elf.c: what it accepts, what it maps, page by page.
module Elf {
  import opened Basics

  const PAGE: nat := 4096
  const USER_LIMIT: nat := 0xBFC00000
  const EHDR: nat := 52
  const PHDR: nat := 32
  const PT_LOAD: nat := 1

  const ENOEXEC: int := -8
  const ENOMEM: int := -12
  const EFAULT: int := -14
  const EINVAL: int := -22

  type Page = p: seq<Byte> | |p| == PAGE witness seq(PAGE, i => 0)

  // User pages by page number.
  type Space = map<nat, Page>

  function Zero(): Page { seq(PAGE, i => 0) }

  function U16(img: seq<Byte>, at: nat): nat
    requires at + 2 <= |img|
  {
    img[at] as int + 256 * (img[at + 1] as int)
  }

  function U32(img: seq<Byte>, at: nat): nat
    requires at + 4 <= |img|
  {
    U16(img, at) + 65536 * U16(img, at + 2)
  }

  // A program header, as far as the loader looks at it.
  datatype Seg = Seg(kind: nat, offset: nat, vaddr: nat, filesz: nat, memsz: nat)

  function Count(img: seq<Byte>): nat
    requires |img| >= EHDR
  {
    U16(img, 44)
  }

  predicate TableFits(img: seq<Byte>) {
    |img| >= EHDR && U32(img, 28) + Count(img) * PHDR <= |img|
  }

  function Phdr(img: seq<Byte>, i: nat): Seg
    requires TableFits(img) && i < Count(img)
  {
    var at := U32(img, 28) + i * PHDR;
    Seg(U32(img, at), U32(img, at + 4), U32(img, at + 8), U32(img, at + 16), U32(img, at + 20))
  }

  // The checks before the first program header.
  function HeaderRc(img: seq<Byte>, stack: nat): (r: int)
    ensures r <= 0 && (r == 0 ==> TableFits(img))
  {
    if |img| < EHDR then ENOEXEC
    else if stack % PAGE != 0 || stack < PAGE || stack > USER_LIMIT - PAGE then EINVAL
    else if img[0] != 0x7F || img[1] != 0x45 || img[2] != 0x4C || img[3] != 0x46 then ENOEXEC
    else if img[4] != 1 || img[5] != 1 || img[6] != 1 then ENOEXEC
    else if U16(img, 16) != 2 || U16(img, 18) != 3 then ENOEXEC
    else if U16(img, 42) != PHDR then ENOEXEC
    else if !TableFits(img) then EFAULT
    else 0
  }

  predicate GoodSeg(img: seq<Byte>, s: Seg) {
    && s.filesz <= s.memsz && s.offset + s.filesz <= |img|
    && 0x1000 <= s.vaddr && s.vaddr + s.memsz <= USER_LIMIT
  }

  function FirstPage(s: Seg): nat { s.vaddr / PAGE }

  function EndPage(s: Seg): nat { (s.vaddr + s.memsz + PAGE - 1) / PAGE }

  // The flat image: the byte the segment puts at address a.
  function FlatByte(img: seq<Byte>, s: Seg, a: nat): Byte
    requires GoodSeg(img, s)
  {
    if s.vaddr <= a < s.vaddr + s.filesz then img[s.offset + (a - s.vaddr)] else 0
  }

  function PageOf(img: seq<Byte>, s: Seg, v: nat): Page
    requires GoodSeg(img, s)
  {
    var p: seq<int> := seq(PAGE, k requires 0 <= k < PAGE => FlatByte(img, s, v * PAGE + k));
    assert forall k: nat | k < |p| :: p[k] == FlatByte(img, s, v * PAGE + k);
    p
  }

  // Can the n-th request for a user page be met?
  type Memory = nat -> bool

  datatype Out = Out(space: Space, asked: nat, rc: int)

  // The page loop of one segment.
  function LoadPages(sp: Space, img: seq<Byte>, s: Seg, v: nat, mem: Memory, asked: nat): Out
    requires GoodSeg(img, s)
    decreases EndPage(s) - v
  {
    if v >= EndPage(s) then Out(sp, asked, 0)
    else if !mem(asked) then Out(sp, asked + 1, ENOMEM)
    else
      var next: Space := sp[v := PageOf(img, s, v)];
      LoadPages(next, img, s, v + 1, mem, asked + 1)
  }

  // The loop over program headers from i on; segs counts the segments loaded.
  function LoadSegs(sp: Space, img: seq<Byte>, i: nat, segs: nat, mem: Memory, asked: nat): Out
    requires TableFits(img) && i <= Count(img)
    decreases Count(img) - i
  {
    if i == Count(img) then Out(sp, asked, segs)
    else
      var s := Phdr(img, i);
      if s.kind != PT_LOAD then LoadSegs(sp, img, i + 1, segs, mem, asked)
      else if !GoodSeg(img, s) then Out(sp, asked, EFAULT)
      else
        var o := LoadPages(sp, img, s, FirstPage(s), mem, asked);
        if o.rc != 0 then o else LoadSegs(o.space, img, i + 1, segs + 1, mem, o.asked)
  }

  // elf_load_ex
  function Load(sp: Space, img: seq<Byte>, stack: nat, mem: Memory): Out {
    var rc := HeaderRc(img, stack);
    if rc != 0 then Out(sp, 0, rc)
    else
      var o := LoadSegs(sp, img, 0, 0, mem, 0);
      if o.rc < 0 then o
      else if o.rc == 0 then Out(o.space, o.asked, ENOEXEC)
      else if !mem(o.asked) then Out(o.space, o.asked + 1, ENOMEM)
      else
        var done: Space := o.space[stack / PAGE := Zero()];
        Out(done, o.asked + 1, o.rc)
  }

  // ---- what is where afterwards ----

  function PageAt(sp: Space, v: nat): Option<Page> {
    if v in sp then Some(sp[v]) else None
  }

  // Program header i maps page v.
  predicate Writes(img: seq<Byte>, i: nat, v: nat)
    requires TableFits(img) && i < Count(img)
  {
    var s := Phdr(img, i);
    s.kind == PT_LOAD && FirstPage(s) <= v < EndPage(s)
  }

  // The last header from i on that maps page v.
  function LastFrom(img: seq<Byte>, v: nat, i: nat): (r: Option<nat>)
    requires TableFits(img) && i <= Count(img)
    ensures r.Some? ==> i <= r.value < Count(img) && Writes(img, r.value, v)
    ensures forall j: nat | i <= j < Count(img) && Writes(img, j, v) :: r.Some? && j <= r.value
    decreases Count(img) - i
  {
    if i == Count(img) then None
    else
      var r := LastFrom(img, v, i + 1);
      if r.Some? then r else if Writes(img, i, v) then Some(i) else None
  }

  ghost predicate AllGood(img: seq<Byte>, i: nat)
    requires TableFits(img)
  {
    forall j: nat | i <= j < Count(img) && Phdr(img, j).kind == PT_LOAD :: GoodSeg(img, Phdr(img, j))
  }

  lemma {:induction false} LoadPagesMeans(sp: Space, img: seq<Byte>, s: Seg, v: nat, mem: Memory, asked: nat, u: nat)
    requires GoodSeg(img, s)
    ensures var o := LoadPages(sp, img, s, v, mem, asked);
            && o.rc <= 0
            && (o.rc == 0 ==>
                  PageAt(o.space, u) == if v <= u < EndPage(s) then Some(PageOf(img, s, u)) else PageAt(sp, u))
    decreases EndPage(s) - v
  {
    hide EndPage, PageOf, GoodSeg;
    if v < EndPage(s) && mem(asked) {
      var next: Space := sp[v := PageOf(img, s, v)];
      LoadPagesMeans(next, img, s, v + 1, mem, asked + 1, u);
    }
  }

  lemma {:induction false} LoadSegsGood(sp: Space, img: seq<Byte>, i: nat, segs: nat, mem: Memory, asked: nat)
    requires TableFits(img) && i <= Count(img)
    ensures LoadSegs(sp, img, i, segs, mem, asked).rc >= 0 ==> AllGood(img, i)
    decreases Count(img) - i
  {
    hide Phdr, GoodSeg, U16, U32, LoadPages;
    if i < Count(img) {
      var s := Phdr(img, i);
      if s.kind != PT_LOAD {
        LoadSegsGood(sp, img, i + 1, segs, mem, asked);
      } else if GoodSeg(img, s) {
        LoadPagesMeans(sp, img, s, FirstPage(s), mem, asked, 0);
        var o := LoadPages(sp, img, s, FirstPage(s), mem, asked);
        if o.rc == 0 { LoadSegsGood(o.space, img, i + 1, segs + 1, mem, o.asked); }
      }
    }
  }

  lemma {:induction false} LoadSegsMeans(sp: Space, img: seq<Byte>, i: nat, segs: nat, mem: Memory, asked: nat, u: nat)
    requires TableFits(img) && i <= Count(img) && AllGood(img, i) && LoadSegs(sp, img, i, segs, mem, asked).rc >= 0
    ensures PageAt(LoadSegs(sp, img, i, segs, mem, asked).space, u) ==
              match LastFrom(img, u, i)
              case Some(j) => Some(PageOf(img, Phdr(img, j), u))
              case None => PageAt(sp, u)
    decreases Count(img) - i
  {
    hide Phdr, GoodSeg, U16, U32, LoadPages, PageOf, FirstPage, EndPage;
    if i < Count(img) {
      var s := Phdr(img, i);
      if s.kind != PT_LOAD {
        LoadSegsMeans(sp, img, i + 1, segs, mem, asked, u);
      } else {
        LoadPagesMeans(sp, img, s, FirstPage(s), mem, asked, u);
        var o := LoadPages(sp, img, s, FirstPage(s), mem, asked);
        LoadSegsMeans(o.space, img, i + 1, segs + 1, mem, o.asked, u);
      }
    }
  }

  // After a successful load every page of the space is known: the stack page is zero; a page
  // some segment covers holds what the last such segment puts there; the rest is untouched.
  lemma LoadedSpace(sp: Space, img: seq<Byte>, stack: nat, mem: Memory, u: nat)
    requires Load(sp, img, stack, mem).rc > 0
    ensures TableFits(img) && AllGood(img, 0)
    ensures PageAt(Load(sp, img, stack, mem).space, u) ==
              if u == stack / PAGE then Some(Zero())
              else match LastFrom(img, u, 0)
                case Some(j) => Some(PageOf(img, Phdr(img, j), u))
                case None => PageAt(sp, u)
  {
    hide Phdr, GoodSeg, LoadSegs, PageOf, HeaderRc, U16, U32;
    LoadSegsGood(sp, img, 0, 0, mem, 0);
    LoadSegsMeans(sp, img, 0, 0, mem, 0, u);
  }

  // The flat image is refined: a byte of a segment whose page no later segment and not the
  // stack covers reads as the file byte below filesz and as zero from there on.
  lemma FlatImage(sp: Space, img: seq<Byte>, stack: nat, mem: Memory, i: nat, a: nat)
    requires Load(sp, img, stack, mem).rc > 0
    requires TableFits(img) && i < Count(img) && Phdr(img, i).kind == PT_LOAD && GoodSeg(img, Phdr(img, i))
    requires Phdr(img, i).vaddr <= a < Phdr(img, i).vaddr + Phdr(img, i).memsz
    requires a / PAGE != stack / PAGE && forall j: nat | i < j < Count(img) :: !Writes(img, j, a / PAGE)
    ensures var p := PageAt(Load(sp, img, stack, mem).space, a / PAGE);
            p.Some? && p.value[a % PAGE] ==
              if a - Phdr(img, i).vaddr < Phdr(img, i).filesz then img[Phdr(img, i).offset + (a - Phdr(img, i).vaddr)]
                else 0
  {
    hide Phdr, Load, HeaderRc, U16, U32;
    var s := Phdr(img, i);
    LoadedSpace(sp, img, stack, mem, a / PAGE);
    Covered(s, a);
    assert Writes(img, i, a / PAGE);
    assert LastFrom(img, a / PAGE, 0) == Some(i);
    assert (a / PAGE) * PAGE + a % PAGE == a;
    assert PageOf(img, s, a / PAGE)[a % PAGE] == FlatByte(img, s, a);
  }

  lemma Covered(s: Seg, a: nat)
    requires s.vaddr <= a < s.vaddr + s.memsz
    ensures FirstPage(s) <= a / PAGE < EndPage(s)
  {
  }

  // ---- when it succeeds ----

  function PagesFrom(img: seq<Byte>, i: nat): nat
    requires TableFits(img) && i <= Count(img)
    decreases Count(img) - i
  {
    if i == Count(img) then 0
    else
      var s := Phdr(img, i);
      (if s.kind == PT_LOAD && EndPage(s) > FirstPage(s) then EndPage(s) - FirstPage(s) else 0) + PagesFrom(img, i + 1)
  }

  function SegsFrom(img: seq<Byte>, i: nat): nat
    requires TableFits(img) && i <= Count(img)
    decreases Count(img) - i
  {
    if i == Count(img) then 0 else (if Phdr(img, i).kind == PT_LOAD then 1 else 0) + SegsFrom(img, i + 1)
  }

  ghost predicate Granted(mem: Memory, from: nat, n: nat) {
    forall k: nat | from <= k < from + n :: mem(k)
  }

  lemma {:induction false} PagesSucceed(sp: Space, img: seq<Byte>, s: Seg, v: nat, mem: Memory, asked: nat)
    requires GoodSeg(img, s)
    ensures var n := if EndPage(s) > v then EndPage(s) - v else 0; var o := LoadPages(sp, img, s, v, mem, asked);
            && (o.rc == 0 <==> Granted(mem, asked, n)) && (o.rc == 0 ==> o.asked == asked + n)
               && (o.rc == 0 || o.rc == ENOMEM)
    decreases EndPage(s) - v
  {
    hide EndPage, PageOf, GoodSeg;
    if v < EndPage(s) {
      var next: Space := sp[v := PageOf(img, s, v)];
      PagesSucceed(next, img, s, v + 1, mem, asked + 1);
      GrantedMore(mem, asked, EndPage(s) - v);
    }
  }

  lemma GrantedMore(mem: Memory, from: nat, n: nat)
    requires n > 0
    ensures Granted(mem, from, n) <==> mem(from) && Granted(mem, from + 1, n - 1)
  {
  }

  lemma GrantedSplit(mem: Memory, from: nat, a: nat, b: nat)
    ensures Granted(mem, from, a + b) <==> Granted(mem, from, a) && Granted(mem, from + a, b)
  {
  }

  lemma {:induction false} SegsSucceed(sp: Space, img: seq<Byte>, i: nat, segs: nat, mem: Memory, asked: nat)
    requires TableFits(img) && i <= Count(img)
    ensures var o := LoadSegs(sp, img, i, segs, mem, asked);
            && (o.rc >= 0 <==> AllGood(img, i) && Granted(mem, asked, PagesFrom(img, i)))
            && (o.rc >= 0 ==> o.rc == segs + SegsFrom(img, i) && o.asked == asked + PagesFrom(img, i))
    decreases Count(img) - i
  {
    hide Phdr, GoodSeg, U16, U32, LoadPages, Granted;
    if i == Count(img) {
      NoneNeeded(mem, asked);
    } else {
      var s := Phdr(img, i);
      GoodFrom(img, i);
      if s.kind != PT_LOAD {
        SegsSucceed(sp, img, i + 1, segs, mem, asked);
      } else if GoodSeg(img, s) {
        PagesSucceed(sp, img, s, FirstPage(s), mem, asked);
        var n := if EndPage(s) > FirstPage(s) then EndPage(s) - FirstPage(s) else 0;
        GrantedSplit(mem, asked, n, PagesFrom(img, i + 1));
        var o := LoadPages(sp, img, s, FirstPage(s), mem, asked);
        if o.rc == 0 { SegsSucceed(o.space, img, i + 1, segs + 1, mem, o.asked); }
      }
    }
  }

  lemma NoneNeeded(mem: Memory, from: nat)
    ensures Granted(mem, from, 0)
  {
  }

  lemma GoodFrom(img: seq<Byte>, i: nat)
    requires TableFits(img) && i < Count(img)
    ensures AllGood(img, i) <==> (Phdr(img, i).kind == PT_LOAD ==> GoodSeg(img, Phdr(img, i))) && AllGood(img, i + 1)
  {
    hide Phdr, GoodSeg, U16, U32;
  }

  // Loading succeeds exactly for an acceptable image of at least one segment when every page
  // asked for, and one more for the stack, can be had; it returns the number of segments.
  lemma LoadSucceeds(sp: Space, img: seq<Byte>, stack: nat, mem: Memory)
    ensures Load(sp, img, stack, mem).rc > 0 <==>
              HeaderRc(img, stack) == 0 && AllGood(img, 0) && SegsFrom(img, 0) > 0
                && Granted(mem, 0, PagesFrom(img, 0) + 1)
    ensures Load(sp, img, stack, mem).rc > 0 ==> Load(sp, img, stack, mem).rc == SegsFrom(img, 0)
  {
    hide AllGood, Granted, LoadSegs, SegsFrom, PagesFrom, U16, U32;
    if HeaderRc(img, stack) == 0 {
      SegsSucceed(sp, img, 0, 0, mem, 0);
      var n := PagesFrom(img, 0);
      GrantedSplit(mem, 0, n, 1);
      GrantedMore(mem, n, 1);
      NoneNeeded(mem, n + 1);
    }
  }
}
