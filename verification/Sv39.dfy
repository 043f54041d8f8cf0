/** Page-table entries and virtual page numbers of Sv39 (RISC-V Privileged Architecture, section 4.4). */
module Sv39 {

  const ENTRIES: nat := 512
  /** vpn2 values below this belong to user space. */
  const USER_TOP: nat := 256
  /** Number of user pages: 2^38 bytes. */
  const USER_PAGES: nat := 0x400_0000

  /** A page-table entry, field by field; `ppn` counts page frames from the first managed one. */
  datatype Pte = Pte(ppn: nat, valid: bool, read: bool, write: bool, exec: bool, user: bool, global: bool,
                     accessed: bool, dirty: bool)

  type Table = t: seq<Pte> | |t| == ENTRIES witness seq(ENTRIES, _ => Null)

  const Null: Pte := Pte(0, false, false, false, false, false, false, false, false)
  const ZeroTable: Table := seq(ENTRIES, _ => Null)

  /** PAGE_READ, PAGE_WRITE, PAGE_EXEC and PAGE_USER as passed to map_pages. */
  datatype Prot = Prot(read: bool, write: bool, exec: bool, user: bool)

  /** An entry that points to the next level: only PAGE_PRESENT is set. */
  function TableEntry(frame: nat): Pte {
    Null.(ppn := frame, valid := true)
  }

  /** A leaf entry as pagewalk makes it: present, accessed and dirty, with the permissions given. */
  function LeafEntry(frame: nat, prot: Prot): Pte {
    Pte(frame, true, prot.read, prot.write, prot.exec, prot.user, false, true, true)
  }

  /** An entry that leads to a table: of its flags only V is set (section 4.4.1). */
  predicate LeadsOn(e: Pte) {
    && e.valid && !e.read && !e.write && !e.exec
    && !e.user && !e.global && !e.accessed && !e.dirty
  }

  /** The three indices of a walk, from the page number v of an address. */
  function Vpn2(v: nat): nat {
    v / 0x4_0000 % ENTRIES
  }

  function Vpn1(v: nat): nat {
    v / ENTRIES % ENTRIES
  }

  function Vpn0(v: nat): nat {
    v % ENTRIES
  }

  function Join(a: nat, b: nat, c: nat): nat {
    a * 0x4_0000 + b * ENTRIES + c
  }

  lemma SplitJoin(a: nat, b: nat, c: nat)
    requires a < ENTRIES && b < ENTRIES && c < ENTRIES
    ensures Vpn2(Join(a, b, c)) == a && Vpn1(Join(a, b, c)) == b && Vpn0(Join(a, b, c)) == c
    ensures a < USER_TOP <==> Join(a, b, c) < USER_PAGES
  {
    var v := Join(a, b, c);
    assert v / ENTRIES == a * ENTRIES + b;
  }

  /** The pages below one entry of a root, and below one entry of a second-level table. */
  lemma PagesBelow(a: nat, b: nat, v: nat)
    requires a < USER_TOP && b < ENTRIES
    ensures Join(a, 0, 0) <= v < Join(a + 1, 0, 0) ==> v < USER_PAGES && Vpn2(v) == a
    ensures Join(a, b, 0) <= v < Join(a, b + 1, 0) ==> v < USER_PAGES && Vpn2(v) == a && Vpn1(v) == b
  {
    if Join(a, b, 0) <= v < Join(a, b + 1, 0) {
      SplitJoin(a, b, v - Join(a, b, 0));
      assert v == Join(a, b, v - Join(a, b, 0));
    }
  }

  lemma JoinSplit(v: nat)
    requires v < USER_PAGES
    ensures Join(Vpn2(v), Vpn1(v), Vpn0(v)) == v && Vpn2(v) < USER_TOP
  {
  }

  lemma WalkIndices(v: nat)
    requires v < USER_PAGES
    ensures Vpn2(v) < USER_TOP && Vpn1(v) < ENTRIES && Vpn0(v) < ENTRIES
  {
    JoinSplit(v);
  }

  datatype Access = Fetch | Load | Store

  /** What a user access can do through a leaf entry. */
  predicate Allows(e: Pte, access: Access) {
    && e.valid && e.user && e.accessed && !(e.write && !e.read)
    && match access
       case Fetch => e.exec
       case Load => e.read
       case Store => e.write && e.dirty
  }
}
