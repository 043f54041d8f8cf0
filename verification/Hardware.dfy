/** Address translation as the hardware does it (RISC-V Privileged Architecture, sections 4.3.2 and 4.4.1). */
module Hardware {
  import opened Basics
  import opened Sv39
  import opened PageTree

  /** A page fault, a page frame, or a page of more than 4 KiB, which comes out of an entry above the last level. */
  datatype Translation = Fault | Frame(ppn: nat) | Superpage(e: Pte, level: nat)

  /** va.vpn[level] */
  function Index(v: nat, level: nat): nat {
    if level == 0 then v % 512 else Index(v / 512, level - 1)
  }

  /** Steps 2 to 4, from the table in frame a on: the leaf entry and the level it is found at. */
  function FindLeaf(tab: seq<Table>, a: nat, v: nat, level: nat): Option<(Pte, nat)>
    decreases level
  {
    var pte := Ent(tab, a, Index(v, level));
    if !pte.valid || (!pte.read && pte.write) then None
    else if pte.read || pte.exec then Some((pte, level))
    else if level == 0 then None
    else FindLeaf(tab, pte.ppn, v, level - 1)
  }

  /** Steps 5 and 7 for an access in user mode. */
  predicate Permitted(pte: Pte, access: Access) {
    && pte.user && pte.accessed
    && (access == Fetch ==> pte.exec)
    && (access == Load ==> pte.read)
    && (access == Store ==> pte.write && pte.dirty)
  }

  /** The translation of page v below a root. */
  function Translate(tab: seq<Table>, root: nat, v: nat, access: Access): Translation {
    match FindLeaf(tab, root, v, 2)
    case None => Fault
    case Some((pte, level)) =>
      if !Permitted(pte, access) then Fault else if level > 0 then Superpage(pte, level) else Frame(pte.ppn)
  }

  lemma Indices(v: nat)
    requires v < USER_PAGES
    ensures Index(v, 0) == Vpn0(v) && Index(v, 1) == Vpn1(v) && Index(v, 2) == Vpn2(v)
  {
    assert v / 512 / 512 == v / 0x4_0000;
    assert Index(v / 512, 1) == Index(v / 512 / 512, 0);
  }

  /** In trees of this kernel the hardware finds what the walk of the kernel finds, and never a superpage. */
  lemma WalkIsHardware(tab: seq<Table>, own: map<nat, Role>, root: nat, v: nat, access: Access)
    requires Tree(tab, own) && Is(own, root, Root) && v < USER_PAGES
    ensures var e := Walk(tab, root, v);
            Translate(tab, root, v, access) == if Allows(e, access) then Frame(e.ppn) else Fault
  {
    Indices(v);
    JoinSplit(v);
    var e2 := Ent(tab, root, Vpn2(v));
    if e2.valid {
      assert Leads(tab, own, root, Vpn2(v), e2.ppn);
      var e1 := Ent(tab, e2.ppn, Vpn1(v));
      if e1.valid {
        assert LeadsTo(tab, own, root, Vpn2(v), Vpn1(v), e1.ppn);
      }
    }
    hide Index, Vpn0, Vpn1, Vpn2;
  }
}
