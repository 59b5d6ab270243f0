// Types.h: the entities that the relocation pass reads, as values.
module Types {

  datatype SectionKind = TEXT | RWDATA | RODATA | ZEROFILL | OTHER

  // the part of a Section that is fixed once it is loaded
  datatype SectionInfo = SectionInfo(start: int, size: nat, kind: SectionKind, stubOffset: int)

  datatype Stub = Stub(addr: int, target: int)

  // What compute_addend decides: a value, or a branch through a stub for target. In the second case
  // the value is the stub's address plus adjust minus the place.
  datatype Plan = Direct(value: int) | Via(target: int, adjust: int)
}
