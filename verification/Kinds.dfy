// Elf.c's section_kind: which sections are loaded.
module Kinds {
  import opened Bits
  import opened Results
  import opened Types
  import opened Objects

  // section_kind, from the flags SHF_WRITE, SHF_ALLOC and SHF_EXECINSTR
  function SectionKindOf(h: SectionHeader): Result<SectionKind>
  {
    var f := h.flags % 8;
    if h.shType == SHT_PROGBITS && f == 6 then Ok(TEXT)
    else if h.shType == SHT_PROGBITS && f == 3 then Ok(RWDATA)
    else if h.shType == SHT_PROGBITS && f == 2 then Ok(RODATA)
    else if h.shType == SHT_PROGBITS && f == 7 then Abort
    else if h.shType == SHT_NOBITS && f == 3 then Ok(ZEROFILL)
    else if h.shType == SHT_NOBITS && (f == 6 || f == 2 || f == 7) then Abort
    else Ok(OTHER)
  }

  predicate IsImage(k: SectionKind) { k == TEXT || k == RODATA || k == RWDATA }

  // ---- in terms of type and flags ----

  // SHF_WRITE, SHF_ALLOC and SHF_EXECINSTR
  predicate IsWritable(h: SectionHeader) { h.flags % 2 == 1 }

  predicate IsAllocated(h: SectionHeader) { h.flags / 2 % 2 == 1 }

  predicate IsExecutable(h: SectionHeader) { h.flags / 4 % 2 == 1 }

  // Type 1 is PROGBITS: bytes of the file that memory is needed for
  predicate IsFromFile(h: SectionHeader)
  {
    h.shType == 1 && IsAllocated(h) && !(IsWritable(h) && IsExecutable(h))
  }

  predicate IsText(h: SectionHeader) { IsFromFile(h) && IsExecutable(h) }

  // Type 8 is NOBITS: memory without bytes in the file
  predicate IsZeroed(h: SectionHeader)
  {
    h.shType == 8 && IsAllocated(h) && IsWritable(h) && !IsExecutable(h)
  }

  // Allocated sections of the two types that the linker does not support
  predicate IsRefused(h: SectionHeader)
  {
    (h.shType == 1 || h.shType == 8) && IsAllocated(h) && !IsFromFile(h) && !IsZeroed(h)
  }

  // Exactly these are loaded, and exactly text is text.
  lemma KindIs(h: SectionHeader)
    ensures SectionKindOf(h).Abort? <==> IsRefused(h)
    ensures SectionKindOf(h).Ok? ==> var k := SectionKindOf(h).value;
      && (IsImage(k) <==> IsFromFile(h)) && (k == ZEROFILL <==> IsZeroed(h)) && (k == TEXT <==> IsText(h))
      && (k == RWDATA <==> IsFromFile(h) && IsWritable(h))
  {
    FlagBits(h.flags);
  }

  lemma FlagBits(f: nat)
    ensures f % 8 == f % 2 + 2 * (f / 2 % 2) + 4 * (f / 4 % 2)
  {
    var a, r := f / 8, f % 8;
    var high, middle, low := r / 4, r / 2 % 2, r % 2;
    QuotRem(f, 2, a * 4 + high * 2 + middle, low);
    QuotRem(f / 2, 2, a * 2 + high, middle);
    QuotRem(f, 4, a * 2 + high, middle * 2 + low);
    QuotRem(f / 4, 2, a, high);
  }

  // The bytes of memory that a section asks for, with some for its stubs
  function BytesAsked(h: SectionHeader, stubs: nat): nat
  {
    if IsFromFile(h) then h.size + stubs else if IsZeroed(h) then (if h.size == 0 then 1 else h.size) else 0
  }
}
