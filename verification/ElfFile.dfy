/** Whole ELF64 files, byte by byte as elf_defs.h lays them out, and what the search finds in them. */
module ElfFile {
  import opened ElfNotes
  import opened LittleEndian
  import opened Words

  /** Elf64_Ehdr. */
  datatype Ehdr = Ehdr(ident: Bytes, kind: nat, machine: nat, version: nat, entry: nat, phoff: nat, shoff: nat,
                       flags: nat, ehsize: nat, phentsize: nat, phnum: nat, shentsize: nat, shnum: nat, shstrndx: nat)

  function EhdrBytes(e: Ehdr): Bytes {
    e.ident + LE(e.kind, 2) + LE(e.machine, 2) + LE(e.version, 4) + LE(e.entry, 8)
    + LE(e.phoff, 8)
    + (LE(e.shoff, 8) + LE(e.flags, 4) + LE(e.ehsize, 2))
    + LE(e.phentsize, 2)
    + LE(e.phnum, 2)
    + (LE(e.shentsize, 2) + LE(e.shnum, 2) + LE(e.shstrndx, 2))
  }

  /** Elf64_Phdr. */
  datatype Phdr = Phdr(kind: nat, flags: nat, offset: nat, vaddr: nat, paddr: nat, filesz: nat, memsz: nat, align: nat)

  function PhdrBytes(h: Phdr): Bytes {
    LE(h.kind, 4)
    + LE(h.flags, 4)
    + LE(h.offset, 8)
    + (LE(h.vaddr, 8) + LE(h.paddr, 8))
    + LE(h.filesz, 8)
    + (LE(h.memsz, 8) + LE(h.align, 8))
  }

  /** The headers of a file, and the notes of its note segments. */
  datatype Elf = Elf(ehdr: Ehdr, phdrs: seq<Phdr>, notes: seq<seq<Note>>)

  function PhdrPos(e: Ehdr, i: nat): nat { e.phoff + i * e.phentsize }

  predicate PhdrLaidOut(f: Bytes, e: Ehdr, i: nat, h: Phdr) {
    h.kind < TWO32 && h.offset < TWO64 && h.filesz < TWO64 && At(f, PhdrPos(e, i), PhdrBytes(h))
  }

  /** A note segment lies in the file and is the encoding of its notes. */
  predicate SegmentLaidOut(f: Bytes, h: Phdr, ns: seq<Note>) {
    h.kind == PT_NOTE ==>
      h.offset + h.filesz <= |f| && h.filesz < TWO32 && EncodesAll(f, h.offset, h.offset + h.filesz, ns)
  }

  /** The file is x: its header, its program headers in order, and in every note segment its notes. */
  predicate LaidOut(f: Bytes, x: Elf) {
    && Sized(f) && |x.ehdr.ident| == 16 && At(f, 0, EhdrBytes(x.ehdr))
    && x.ehdr.phoff < TWO64 && x.ehdr.phentsize < 0x1_0000 && x.ehdr.phnum < 0x1_0000
    && x.ehdr.phnum == |x.phdrs| && (forall i :: 0 <= i < |x.phdrs| ==> PhdrLaidOut(f, x.ehdr, i, x.phdrs[i]))
    && SegmentsLaidOut(f, x)
  }

  predicate SegmentsLaidOut(f: Bytes, x: Elf) {
    |x.phdrs| == |x.notes| && forall i :: 0 <= i < |x.phdrs| ==> SegmentLaidOut(f, x.phdrs[i], x.notes[i])
  }

  // ---- what the search reads of the headers -----------------------------------------------------

  lemma EhdrRead(f: Bytes, e: Ehdr)
    requires At(f, 0, EhdrBytes(e)) && |e.ident| == 16
    requires e.phoff < TWO64 && e.phentsize < 0x1_0000 && e.phnum < 0x1_0000
    ensures |f| >= EHDR_SIZE && U64(f, 32) == e.phoff && U16(f, 54) == e.phentsize && U16(f, 56) == e.phnum
    ensures f[..16] == e.ident
  {
    var a := e.ident + LE(e.kind, 2) + LE(e.machine, 2) + LE(e.version, 4) + LE(e.entry, 8);
    var b := LE(e.shoff, 8) + LE(e.flags, 4) + LE(e.ehsize, 2);
    var c := LE(e.shentsize, 2) + LE(e.shnum, 2) + LE(e.shstrndx, 2);
    AtBoth(f, 0, a + LE(e.phoff, 8) + b + LE(e.phentsize, 2) + LE(e.phnum, 2), c);
    AtBoth(f, 0, a + LE(e.phoff, 8) + b + LE(e.phentsize, 2), LE(e.phnum, 2));
    AtBoth(f, 0, a + LE(e.phoff, 8) + b, LE(e.phentsize, 2));
    AtBoth(f, 0, a + LE(e.phoff, 8), b);
    AtBoth(f, 0, a, LE(e.phoff, 8));
    FieldsExactly(f, 32, e.phoff);
    FieldsExactly(f, 54, e.phentsize);
    FieldsExactly(f, 56, e.phnum);
    IdentRead(f, e);
  }

  lemma IdentRead(f: Bytes, e: Ehdr)
    requires |e.ident| == 16 && At(f, 0, e.ident + LE(e.kind, 2) + LE(e.machine, 2) + LE(e.version, 4) + LE(e.entry, 8))
    ensures f[..16] == e.ident
  {
    var b := LE(e.kind, 2) + LE(e.machine, 2) + LE(e.version, 4) + LE(e.entry, 8);
    assert e.ident + LE(e.kind, 2) + LE(e.machine, 2) + LE(e.version, 4) + LE(e.entry, 8) == e.ident + b;
    AtBoth(f, 0, e.ident, b);
  }

  lemma PhdrRead(f: Bytes, o: nat, h: Phdr)
    requires At(f, o, PhdrBytes(h)) && h.kind < TWO32 && h.offset < TWO64 && h.filesz < TWO64
    ensures o + PHDR_SIZE <= |f| && U32(f, o) == h.kind && U64(f, o + 8) == h.offset && U64(f, o + 32) == h.filesz
  {
    var a := LE(h.kind, 4) + LE(h.flags, 4) + LE(h.offset, 8);
    var b := LE(h.vaddr, 8) + LE(h.paddr, 8);
    AtBoth(f, o, a + b + LE(h.filesz, 8), LE(h.memsz, 8) + LE(h.align, 8));
    AtBoth(f, o, a + b, LE(h.filesz, 8));
    AtBoth(f, o, a, b);
    AtBoth(f, o, LE(h.kind, 4) + LE(h.flags, 4), LE(h.offset, 8));
    AtBoth(f, o, LE(h.kind, 4), LE(h.flags, 4));
    FieldsExactly(f, o, h.kind);
    FieldsExactly(f, o + 8, h.offset);
    FieldsExactly(f, o + 32, h.filesz);
  }

  predicate IsNamed(e: Entry, h: Phdr) {
    if h.kind == PT_NOTE then e.Notes? && e.start == h.offset && e.end == h.offset + h.filesz else e.Other?
  }

  /** Each entry the search comes to is the program header that is there. */
  lemma EntryIs(f: Bytes, x: Elf, i: nat)
    requires LaidOut(f, x) && i < |x.phdrs|
    ensures |f| >= EHDR_SIZE && IsNamed(Entries(f)(i), x.phdrs[i])
    ensures PhdrAt(U64(f, 32), U16(f, 54), i) == PhdrPos(x.ehdr, i)
  {
    EhdrRead(f, x.ehdr);
    assert PhdrLaidOut(f, x.ehdr, i, x.phdrs[i]);
    assert SegmentLaidOut(f, x.phdrs[i], x.notes[i]);
    PhdrRead(f, PhdrPos(x.ehdr, i), x.phdrs[i]);
  }

  /** A note segment that reaches beyond 2^64, wherever its header is. */
  lemma WrappedHeader(f: Bytes, e: Ehdr, i: nat, h: Phdr)
    requires Sized(f) && |e.ident| == 16 && At(f, 0, EhdrBytes(e)) && e.phoff < TWO64
    requires e.phentsize < 0x1_0000 && e.phnum < 0x1_0000 && i < e.phnum && PhdrLaidOut(f, e, i, h)
    requires h.kind == PT_NOTE && h.offset + h.filesz >= TWO64
    ensures |f| >= EHDR_SIZE && Entries(f)(i) == Notes(h.offset, h.offset + h.filesz - TWO64)
  {
    EhdrRead(f, e);
    PhdrRead(f, PhdrPos(e, i), h);
  }

  /** What the search reads of the headers of f is what x says. */
  predicate ReadAs(f: Bytes, x: Elf) {
    && Sized(f) && |f| >= EHDR_SIZE && U16(f, 56) == |x.phdrs| && SegmentsLaidOut(f, x)
    && (forall i: nat | i < |x.phdrs| :: IsNamed(Entries(f)(i), x.phdrs[i]))
    && (forall i: nat | i < |x.phdrs| :: PhdrAt(U64(f, 32), U16(f, 54), i) == PhdrPos(x.ehdr, i))
  }

  lemma LaidOutIsRead(f: Bytes, x: Elf)
    requires LaidOut(f, x)
    ensures ReadAs(f, x)
  {
    EhdrRead(f, x.ehdr);
    forall i: nat | i < |x.phdrs|
      ensures IsNamed(Entries(f)(i), x.phdrs[i]) && PhdrAt(U64(f, 32), U16(f, 54), i) == PhdrPos(x.ehdr, i)
    {
      EntryIs(f, x, i);
    }
  }

  // ---- parse all notes, take the first match ----------------------------------------------------

  /** The header is that of a note segment, and its notes hold a feature control note. */
  ghost predicate Holds(h: Phdr, ns: seq<Note>) {
    h.kind == PT_NOTE && exists k :: 0 <= k < |ns| && IsFeatureCtl(ns[k])
  }

  ghost predicate HeldIn(f: Bytes, h: Phdr, ns: seq<Note>, r: Found) {
    h.kind == PT_NOTE && exists k: nat :: FirstAt(ns, k) && FindsAt(f, h.offset, h.offset + h.filesz, ns, k, r)
  }

  ghost predicate HoldsAt(x: Elf, j: nat) { j < |x.phdrs| && j < |x.notes| && Holds(x.phdrs[j], x.notes[j]) }

  /** Segment j is the first, from i on, that holds one. */
  ghost predicate FirstHolder(x: Elf, i: nat, j: nat) {
    i <= j && HoldsAt(x, j) && forall l: nat :: i <= l < j ==> !HoldsAt(x, l)
  }

  /** r is what "parse all notes, take the first match" gives from segment i on. */
  ghost predicate FileFinds(f: Bytes, x: Elf, i: nat, r: Found) {
    && (r.Absent? <==> forall j: nat :: i <= j ==> !HoldsAt(x, j))
    && (forall j: nat :: FirstHolder(x, i, j) ==> HeldIn(f, x.phdrs[j], x.notes[j], r))
  }

  lemma PassOver(f: Bytes, x: Elf, i: nat, r: Found)
    requires !HoldsAt(x, i) && FileFinds(f, x, i + 1, r)
    ensures FileFinds(f, x, i, r)
  {
    forall j: nat | FirstHolder(x, i, j) ensures HeldIn(f, x.phdrs[j], x.notes[j], r) {
      assert FirstHolder(x, i + 1, j);
    }
  }

  lemma StopHere(f: Bytes, x: Elf, i: nat, r: Found)
    requires HoldsAt(x, i) && HeldIn(f, x.phdrs[i], x.notes[i], r) && !r.Absent?
    ensures FileFinds(f, x, i, r)
  {
    assert forall j: nat :: FirstHolder(x, i, j) ==> j == i;
  }

  lemma {:induction false} SomeFirst(ns: seq<Note>) returns (k: nat)
    requires exists j :: 0 <= j < |ns| && IsFeatureCtl(ns[j])
    ensures FirstAt(ns, k)
    decreases |ns|
  {
    if IsFeatureCtl(ns[0]) {
      k := 0;
    } else {
      var j :| 0 <= j < |ns| && IsFeatureCtl(ns[j]);
      assert ns[1..][j - 1] == ns[j];
      k := SomeFirst(ns[1..]);
      k := k + 1;
      FirstAtTail(ns);
    }
  }

  lemma SegmentResult(f: Bytes, h: Phdr, ns: seq<Note>)
    requires Sized(f) && h.kind == PT_NOTE && SegmentLaidOut(f, h, ns)
    ensures var r := Walk(f, h.offset, h.offset + h.filesz);
      (r.Absent? <==> !Holds(h, ns)) && (Holds(h, ns) ==> HeldIn(f, h, ns, r))
  {
    WalkTakesFirst(f, h.offset, h.offset + h.filesz, ns);
    if Holds(h, ns) {
      var k := SomeFirst(ns);
    }
  }

  /** What the search makes of an entry, with rest for the entries after it. */
  function FromEntry(f: Bytes, e: Entry, rest: Found): Found
    requires Sized(f)
  {
    match e
    case Missing => Fail(ShortRead)
    case Other => rest
    case Notes(start, end) => var r := Walk(f, start, end); if r.Absent? then rest else r
  }

  /** next is what is found from segment i on, if it is r where the segment holds a note and rest where it does not. */
  lemma HolderDecides(f: Bytes, x: Elf, i: nat, r: Found, rest: Found, next: Found)
    requires i < |x.phdrs| == |x.notes| && FileFinds(f, x, i + 1, rest)
    requires HoldsAt(x, i) ==> HeldIn(f, x.phdrs[i], x.notes[i], r) && !r.Absent? && next == r
    requires !HoldsAt(x, i) ==> next == rest
    ensures FileFinds(f, x, i, next)
  {
    if HoldsAt(x, i) {
      StopHere(f, x, i, r);
    } else {
      PassOver(f, x, i, rest);
    }
  }

  lemma EntryFinds(f: Bytes, x: Elf, i: nat, e: Entry, rest: Found)
    requires Sized(f) && i < |x.phdrs| == |x.notes| && IsNamed(e, x.phdrs[i])
    requires SegmentLaidOut(f, x.phdrs[i], x.notes[i]) && FileFinds(f, x, i + 1, rest)
    ensures FileFinds(f, x, i, FromEntry(f, e, rest))
  {
    var h, ns := x.phdrs[i], x.notes[i];
    if h.kind == PT_NOTE {
      var r := Walk(f, h.offset, h.offset + h.filesz);
      SegmentResult(f, h, ns);
      HolderDecides(f, x, i, r, rest, FromEntry(f, e, rest));
    } else {
      HolderDecides(f, x, i, rest, rest, rest);
    }
  }

  lemma {:induction false} SegmentsTakeFirst(f: Bytes, entry: nat -> Entry, x: Elf, i: nat)
    requires Sized(f) && SegmentsLaidOut(f, x) && i <= |x.phdrs|
    requires forall j :: 0 <= j < |x.phdrs| ==> IsNamed(entry(j), x.phdrs[j])
    ensures FileFinds(f, x, i, Segments(f, entry, |x.phdrs|, i))
    decreases |x.phdrs| - i
  {
    if i < |x.phdrs| {
      var rest := Segments(f, entry, |x.phdrs|, i + 1);
      SegmentsTakeFirst(f, entry, x, i + 1);
      assert SegmentLaidOut(f, x.phdrs[i], x.notes[i]);
      EntryFinds(f, x, i, entry(i), rest);
      SegmentsNext(f, entry, |x.phdrs|, i);
    }
  }

  lemma SegmentsNext(f: Bytes, entry: nat -> Entry, n: nat, i: nat)
    requires Sized(f) && i < n
    ensures Segments(f, entry, n, i) == FromEntry(f, entry(i), Segments(f, entry, n, i + 1))
  {}

  lemma ReadFinds(f: Bytes, x: Elf)
    requires ReadAs(f, x)
    ensures FileFinds(f, x, 0, FindDesc(f))
  {
    SegmentsTakeFirst(f, Entries(f), x, 0);
  }

  /** For every well-formed file: the offset returned is the descriptor of the first feature control note in
      header order, and -1 is returned exactly when no note segment holds one. */
  lemma FindsTheFirstNote(f: Bytes, x: Elf)
    requires LaidOut(f, x)
    ensures |f| >= EHDR_SIZE && FileFinds(f, x, 0, FindDesc(f))
  {
    LaidOutIsRead(f, x);
    ReadFinds(f, x);
  }
}
