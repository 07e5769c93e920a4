/** From a virtual block and page, over the remapped physical block, to the row address on the die, and back. */
module RowAddress {
  import opened Addressing
  import opened BadBlocks

  const PAGES_PER_MLC_BLOCK: nat := 256
  const PAGES_PER_SLC_BLOCK: nat := 128
  const LUN_0_BASE_ADDR: nat := 0
  const LUN_1_BASE_ADDR: nat := 0x200000

  /** user blocks of each unit are user's, of total; the first main of them are the main space. */
  datatype Sizes = Sizes(user: nat, main: nat, total: nat) {
    predicate Valid() { 0 < user <= main <= total && total * PAGES_PER_MLC_BLOCK <= LUN_1_BASE_ADDR }
  }

  /** A block number of a space with per blocks in each of the two units, in the space with total blocks in each. */
  function InTotal(block: nat, per: nat, total: nat): (r: nat)
    requires 0 < per <= total && block < 2 * per
    ensures r < 2 * total && r / total == block / per && r % total == block % per
    ensures r == if block < per then block else total + (block - per)
  {
    if block < per then
      DivModOfSum(per, 0, block);
      DivModOfSum(total, 0, block);
      block / per * total + block % per
    else
      DivModOfSum(per, 1, block - per);
      DivModOfSum(total, 1, block - per);
      block / per * total + block % per
  }

  function Vblock2PblockOfTbsTranslation(block: nat, g: Sizes): nat
    requires g.Valid() && block < 2 * g.user
  {
    InTotal(block, g.user, g.total)
  }

  function Vpage2PlsbPageTranslation(page: nat): nat {
    if page > 0 then 2 * page - 1 else 0
  }

  function PlsbPage2VpageTranslation(page: nat): nat {
    if page > 0 then (page + 1) / 2 else 0
  }

  lemma LsbPageRoundTrip(page: nat)
    ensures PlsbPage2VpageTranslation(Vpage2PlsbPageTranslation(page)) == page
    ensures page < PAGES_PER_SLC_BLOCK ==> Vpage2PlsbPageTranslation(page) < PAGES_PER_MLC_BLOCK
  {
  }

  /** REQ_OPT_NAND_ADDR_VSA, or a physical address in the total or the main block space. */
  datatype NandAddr = OfVsa(block: nat, page: nat) | OfTotal(block: nat, page: nat) | OfMain(block: nat, page: nat)

  predicate ValidAddr(a: NandAddr, g: Sizes) {
    match a
    case OfVsa(block, page) => block < 2 * g.user && page < PAGES_PER_SLC_BLOCK
    case OfTotal(block, page) => block < 2 * g.total && page < PAGES_PER_MLC_BLOCK
    case OfMain(block, page) => block < 2 * g.main && page < PAGES_PER_MLC_BLOCK
  }

  /** The physical block the address names, before remapping. */
  function PhysicalBlock(a: NandAddr, g: Sizes): (phy: nat)
    requires g.Valid() && ValidAddr(a, g)
    ensures phy < 2 * g.total
  {
    match a
    case OfVsa(block, _) => Vblock2PblockOfTbsTranslation(block, g)
    case OfTotal(block, _) => block
    case OfMain(block, _) => InTotal(block, g.main, g.total)
  }

  /** The unit of a block, in a space with per blocks in each. */
  function Unit(block: nat, per: nat): nat
    requires per > 0
  {
    block / per
  }

  function UnitOf(a: NandAddr, g: Sizes): nat
    requires g.Valid() && ValidAddr(a, g)
  {
    match a
    case OfVsa(block, _) => Unit(PhysicalBlock(a, g), g.total)
    case OfTotal(block, _) => Unit(block, g.total)
    case OfMain(block, _) => Unit(block, g.main)
  }

  /** Addresses of the total space are not remapped. */
  function Target(remapped: seq<nat>, a: NandAddr, g: Sizes): nat
    requires g.Valid() && |remapped| == 2 * g.total && ValidAddr(a, g)
  {
    if a.OfTotal? then a.block else remapped[PhysicalBlock(a, g)]
  }

  function GenerateNandRowAddr(remapped: seq<nat>, a: NandAddr, g: Sizes): nat
    requires g.Valid() && |remapped| == 2 * g.total && ValidAddr(a, g)
  {
    var page := if a.OfVsa? then Vpage2PlsbPageTranslation(a.page) else a.page;
    (if UnitOf(a, g) == 0 then LUN_0_BASE_ADDR
        else LUN_1_BASE_ADDR) + Target(remapped, a, g) % g.total * PAGES_PER_MLC_BLOCK + page
  }

  /** The block a failed request is charged to, from its row address. */
  function GrownBadBlock(rowAddr: nat, g: Sizes): nat {
    ProductMonotone(0, rowAddr / LUN_1_BASE_ADDR, g.total);
    rowAddr % LUN_1_BASE_ADDR / PAGES_PER_MLC_BLOCK + rowAddr / LUN_1_BASE_ADDR * g.total
  }

  /** A row address takes apart into unit, block in the unit and page. */
  lemma RowTakesApart(lun: nat, block: nat, page: nat, g: Sizes)
    requires g.Valid() && lun < 2 && block < g.total && page < PAGES_PER_MLC_BLOCK
    ensures var row := (if lun == 0 then LUN_0_BASE_ADDR else LUN_1_BASE_ADDR) + block * PAGES_PER_MLC_BLOCK + page;
            && row / LUN_1_BASE_ADDR == lun && row % LUN_1_BASE_ADDR == block * PAGES_PER_MLC_BLOCK + page
            && (row % LUN_1_BASE_ADDR) / PAGES_PER_MLC_BLOCK == block
                && (row % LUN_1_BASE_ADDR) % PAGES_PER_MLC_BLOCK == page
  {
    assert block * PAGES_PER_MLC_BLOCK + page < LUN_1_BASE_ADDR;
  }

  /** remapped keeps every block in its unit. */
  ghost predicate StaysInUnit(remapped: seq<nat>, g: Sizes)
    requires g.Valid()
  {
    |remapped| == 2 * g.total && forall i :: 0 <= i < |remapped| ==>
        remapped[i] < 2 * g.total && remapped[i] / g.total == i / g.total
  }

  /** The grown-bad computation finds, from the row address, exactly the block the request went to. */
  lemma GrownBadIsTarget(remapped: seq<nat>, a: NandAddr, g: Sizes)
    requires g.Valid() && StaysInUnit(remapped, g) && ValidAddr(a, g)
    ensures GrownBadBlock(GenerateNandRowAddr(remapped, a, g), g) == Target(remapped, a, g)
  {
    UnitIsTargets(remapped, a, g);
    LsbPageRoundTrip(a.page);
    hide GrownBadBlock, Target, UnitOf, StaysInUnit;
    RowLeadsBack(UnitOf(a, g), Target(remapped, a, g), if a.OfVsa? then Vpage2PlsbPageTranslation(a.page) else a.page,
        g);
  }

  /** A block's unit and its place in the unit are the block. */
  lemma RowLeadsBack(lun: nat, block: nat, page: nat, g: Sizes)
    requires g.Valid() && lun < 2 && block / g.total == lun && block % g.total < g.total && page < PAGES_PER_MLC_BLOCK
    ensures GrownBadBlock((if lun == 0 then LUN_0_BASE_ADDR
        else LUN_1_BASE_ADDR) + block % g.total * PAGES_PER_MLC_BLOCK + page, g) == block
  {
    RowTakesApart(lun, block % g.total, page, g);
    assert block == g.total * (block / g.total) + block % g.total;
    assert lun * g.total == g.total * lun;
  }

  lemma SecondUnit(block: nat, per: nat)
    requires per > 0 && block < 2 * per
    ensures block / per < 2
  {
    if block < per {
      DivModOfSum(per, 0, block);
    } else {
      DivModOfSum(per, 1, block - per);
    }
  }

  lemma UnitIsTargets(remapped: seq<nat>, a: NandAddr, g: Sizes)
    requires g.Valid() && StaysInUnit(remapped, g) && ValidAddr(a, g)
    ensures UnitOf(a, g) < 2 && Target(remapped, a, g) / g.total == UnitOf(a, g)
        && Target(remapped, a, g) % g.total < g.total
  {
    var phy := InTotal(a.block, if a.OfVsa? then g.user else if a.OfMain? then g.main else g.total, g.total);
    assert a.OfTotal? ==> phy == a.block;
    SecondUnit(a.block, if a.OfVsa? then g.user else if a.OfMain? then g.main else g.total);
  }

  /** The page of a row is the one asked for; a virtual page is on the least significant bits of its cells. */
  lemma PageOfRow(remapped: seq<nat>, a: NandAddr, g: Sizes)
    requires g.Valid() && StaysInUnit(remapped, g) && ValidAddr(a, g)
    ensures var page := GenerateNandRowAddr(remapped, a, g) % PAGES_PER_MLC_BLOCK;
            if a.OfVsa? then PlsbPage2VpageTranslation(page) == a.page && (page == 0 || page % 2 == 1)
            else page == a.page
  {
    UnitIsTargets(remapped, a, g);
    LsbPageRoundTrip(a.page);
    var page := if a.OfVsa? then Vpage2PlsbPageTranslation(a.page) else a.page;
    var lun, block := UnitOf(a, g), Target(remapped, a, g) % g.total;
    assert GenerateNandRowAddr(remapped, a, g) == (if lun == 0 then LUN_0_BASE_ADDR else LUN_1_BASE_ADDR)
        + block * PAGES_PER_MLC_BLOCK + page;
    DivModOfSum(PAGES_PER_MLC_BLOCK, (if lun == 0 then 0 else 0x2000) + block, page);
  }

  predicate SameKind(a: NandAddr, b: NandAddr) {
    (a.OfVsa? <==> b.OfVsa?) && (a.OfTotal? <==> b.OfTotal?)
  }

  /** Addresses of one kind have the same row exactly if they name the same page of blocks led to one physical block. */
  lemma SameRowIff(remapped: seq<nat>, a: NandAddr, b: NandAddr, g: Sizes)
    requires g.Valid() && StaysInUnit(remapped, g) && ValidAddr(a, g) && ValidAddr(b, g) && SameKind(a, b)
    ensures GenerateNandRowAddr(remapped, a, g) == GenerateNandRowAddr(remapped, b, g)
       <==> Target(remapped, a, g) == Target(remapped, b, g) && a.page == b.page
    ensures a.OfTotal? && a != b ==> GenerateNandRowAddr(remapped, a, g) != GenerateNandRowAddr(remapped, b, g)
  {
    GrownBadIsTarget(remapped, a, g);
    GrownBadIsTarget(remapped, b, g);
    PageOfRow(remapped, a, g);
    PageOfRow(remapped, b, g);
    UnitIsTargets(remapped, a, g);
    UnitIsTargets(remapped, b, g);
    hide GrownBadBlock, UnitOf, StaysInUnit, PlsbPage2VpageTranslation;
  }

  // ---------- over the table RemapBadBlock leaves ----------

  /** One die's table: both units, the second one behind the first. */
  ghost predicate TableOf(remapped: seq<nat>, bad: seq<bool>, g: Sizes)
    requires g.Valid()
  {
    && |remapped| == |bad| == 2 * g.total
    && forall i :: 0 <= i < g.total ==>
         && remapped[i] == RemapLun(bad[..g.total], g.user, g.user).remap[i]
         && remapped[g.total + i] == g.total + RemapLun(bad[g.total..], g.user, g.user).remap[i]
  }

  /** The bad flags of die d. */
  function BadRow(bad: array2<bool>, d: nat): (s: seq<bool>)
    requires d < bad.Length0
    reads bad
    ensures |s| == bad.Length1 && forall i :: 0 <= i < bad.Length1 ==> s[i] == bad[d, i]
  {
    seq(bad.Length1, i requires 0 <= i < bad.Length1 reads bad => bad[d, i])
  }

  /** The remap table of die d. */
  function RemapRow(remapped: array2<nat>, d: nat): (s: seq<nat>)
    requires d < remapped.Length0
    reads remapped
    ensures |s| == remapped.Length1 && forall i :: 0 <= i < remapped.Length1 ==> s[i] == remapped[d, i]
  {
    seq(remapped.Length1, i requires 0 <= i < remapped.Length1 reads remapped => remapped[d, i])
  }

  /** The table RemapBadBlock leaves is the one the addressing relies on. */
  lemma RemappedIsTable(bad: array2<bool>, remapped: array2<nat>, d: nat, g: Sizes, count: nat)
    requires g.Valid() && d < bad.Length0 == remapped.Length0 && bad.Length1 == remapped.Length1 == 2 * g.total
    requires DieDone(bad, remapped, d, g.total, g.user, count)
    ensures TableOf(RemapRow(remapped, d), BadRow(bad, d), g)
  {
    assert BadRow(bad, d)[..g.total] == BadOf(bad, d, 0, g.total);
    assert BadRow(bad, d)[g.total..] == BadOf(bad, d, g.total, g.total);
    hide RemapLun;
  }

  lemma TableStaysInUnit(remapped: seq<nat>, bad: seq<bool>, g: Sizes)
    requires g.Valid() && TableOf(remapped, bad, g)
    ensures StaysInUnit(remapped, g)
  {
    var l0, l1 := RemapLun(bad[..g.total], g.user, g.user), RemapLun(bad[g.total..], g.user, g.user);
    RemapLunOk(bad[..g.total], g.user, g.user);
    RemapLunOk(bad[g.total..], g.user, g.user);
    forall i | 0 <= i < |remapped|
      ensures remapped[i] < 2 * g.total && remapped[i] / g.total == i / g.total
    {
      if i < g.total {
        assert Led(bad[..g.total], g.user, l0, i);
        DivModOfSum(g.total, 0, i);
        DivModOfSum(g.total, 0, remapped[i]);
      } else {
        assert Led(bad[g.total..], g.user, l1, i - g.total) && remapped[i] == g.total + l1.remap[i - g.total];
        DivModOfSum(g.total, 1, i - g.total);
        DivModOfSum(g.total, 1, remapped[i] - g.total);
      }
    }
  }

  /** Where a virtual block of one unit ends up. */
  lemma UserTarget(remapped: seq<nat>, bad: seq<bool>, block: nat, g: Sizes)
    requires g.Valid() && TableOf(remapped, bad, g) && block < 2 * g.user
    ensures Vblock2PblockOfTbsTranslation(block, g) < |remapped|
    ensures var t := remapped[Vblock2PblockOfTbsTranslation(block, g)];
            if block < g.user then
              t == RemapLun(bad[..g.total], g.user, g.user).remap[block] < g.total && bad[t] == bad[..g.total][t]
            else
              var u := RemapLun(bad[g.total..], g.user, g.user).remap[block - g.user];
              t == g.total + u && u < g.total && bad[t] == bad[g.total..][u]
  {
    if block < g.user {
      RemapIsInjective(bad[..g.total], g.user, block, block);
    } else {
      RemapIsInjective(bad[g.total..], g.user, block - g.user, block - g.user);
    }
  }

  /** Two virtual blocks that are good after remapping are on different physical blocks. */
  lemma TargetsDiffer(remapped: seq<nat>, bad: seq<bool>, b: nat, c: nat, g: Sizes)
    requires g.Valid() && TableOf(remapped, bad, g) && b < c < 2 * g.user && StaysInUnit(remapped, g)
    requires var p, q := Vblock2PblockOfTbsTranslation(b, g), Vblock2PblockOfTbsTranslation(c, g);
             p < |remapped| && q < |remapped| && !bad[remapped[p]] && !bad[remapped[q]]
    ensures remapped[Vblock2PblockOfTbsTranslation(b, g)] != remapped[Vblock2PblockOfTbsTranslation(c, g)]
  {
    UserTarget(remapped, bad, b, g);
    UserTarget(remapped, bad, c, g);
    hide TableOf, StaysInUnit, RemapLun, Vblock2PblockOfTbsTranslation;
    if c < g.user {
      RemapIsInjective(bad[..g.total], g.user, b, c);
    } else if b >= g.user {
      RemapIsInjective(bad[g.total..], g.user, b - g.user, c - g.user);
    }
  }

  predicate Good(bad: seq<bool>, block: nat) {
    block < |bad| && !bad[block]
  }

  /**
   After remapping, different pages of good virtual blocks of a die have different row addresses,
   and the block read back from a row address is the good one the page is on.
   */
  lemma RowAddressesAreInjective(remapped: seq<nat>, bad: seq<bool>, a: NandAddr, b: NandAddr, g: Sizes)
    requires g.Valid() && TableOf(remapped, bad, g) && a.OfVsa? && b.OfVsa? && ValidAddr(a, g) && ValidAddr(b, g)
        && a != b
    requires Good(bad, Target(remapped, a, g)) && Good(bad, Target(remapped, b, g))
    ensures GenerateNandRowAddr(remapped, a, g) != GenerateNandRowAddr(remapped, b, g)
    ensures GrownBadBlock(GenerateNandRowAddr(remapped, a, g), g) == Target(remapped, a, g)
  {
    TableStaysInUnit(remapped, bad, g);
    GrownBadIsTarget(remapped, a, g);
    hide TableOf, StaysInUnit, GenerateNandRowAddr, GrownBadBlock, Vblock2PblockOfTbsTranslation;
    if a.block < b.block {
      TargetsDiffer(remapped, bad, a.block, b.block, g);
    } else if b.block < a.block {
      TargetsDiffer(remapped, bad, b.block, a.block, g);
    }
    SameRowIff(remapped, a, b, g);
  }
}
