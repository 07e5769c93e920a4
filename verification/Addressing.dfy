/** The address arithmetic: packed virtual slice addresses, dies, channels and ways, physical blocks. */
module Addressing {
  // ---------- division facts ----------

  lemma {:induction false} ProductMonotone(a: nat, b: nat, n: nat)
    requires a <= b
    ensures a * n <= b * n
  {
    if a < b {
      ProductMonotone(a, b - 1, n);
      assert b * n == (b - 1) * n + n;
    }
  }

  /** a * n + b, with b below n, is below m * n exactly if a is below m. */
  lemma BoundedProduct(a: nat, m: nat, b: nat, n: nat)
    requires b < n
    ensures a < m <==> a * n + b < m * n
  {
    if a < m {
      ProductMonotone(a + 1, m, n);
      assert (a + 1) * n == a * n + n;
    } else {
      ProductMonotone(m, a, n);
    }
  }

  lemma DivModOfSum(n: nat, q: nat, r: nat)
    requires r < n
    ensures (r + n * q) / n == q && (r + n * q) % n == r
  {
    var x := r + n * q;
    var k, m := x / n, x % n;
    assert x == k * n + m && x == q * n + r;
    BoundedProduct(k, q, m, n);
    BoundedProduct(q, k, r, n);
  }

  // ---------- virtual slice addresses ----------

  function Vsa2VdieTranslation(vsa: nat, dies: nat): nat
    requires dies > 0
  {
    vsa % dies
  }

  function Vsa2VblockTranslation(vsa: nat, dies: nat, pages: nat): nat
    requires dies > 0 && pages > 0
  {
    vsa / dies / pages
  }

  function Vsa2VpageTranslation(vsa: nat, dies: nat, pages: nat): nat
    requires dies > 0 && pages > 0
  {
    vsa / dies % pages
  }

  function Vorg2VsaTranslation(die: nat, block: nat, page: nat, dies: nat, pages: nat): nat {
    die + dies * (block * pages + page)
  }

  /** Unpacking a packed address gives back die, block and page. */
  lemma PackUnpack(die: nat, block: nat, page: nat, dies: nat, pages: nat)
    requires die < dies && page < pages
    ensures var vsa := Vorg2VsaTranslation(die, block, page, dies, pages);
            && Vsa2VdieTranslation(vsa, dies) == die
            && Vsa2VblockTranslation(vsa, dies, pages) == block
            && Vsa2VpageTranslation(vsa, dies, pages) == page
  {
    DivModOfSum(dies, block * pages + page, die);
    DivModOfSum(pages, block, page);
    assert page + pages * block == block * pages + page;
  }

  /** Packing an unpacked address gives back the address, and its parts are in range. */
  lemma UnpackPack(vsa: nat, dies: nat, pages: nat)
    requires dies > 0 && pages > 0
    ensures Vsa2VdieTranslation(vsa, dies) < dies && Vsa2VpageTranslation(vsa, dies, pages) < pages
    ensures Vorg2VsaTranslation(Vsa2VdieTranslation(vsa, dies), Vsa2VblockTranslation(vsa, dies, pages),
                                Vsa2VpageTranslation(vsa, dies, pages), dies, pages) == vsa
  {
    var q := vsa / dies;
    assert vsa == dies * q + vsa % dies;
    assert q == pages * (q / pages) + q % pages;
    assert q / pages * pages + q % pages == q;
  }

  /** The packed addresses of the blocks of the device are exactly those below SLICES_PER_SSD. */
  lemma PackedInRange(die: nat, block: nat, page: nat, dies: nat, blocks: nat, pages: nat)
    requires die < dies && page < pages
    ensures block < blocks <==> Vorg2VsaTranslation(die, block, page, dies, pages) < blocks * pages * dies
  {
    BoundedProduct(block, blocks, page, pages);
    BoundedProduct(block * pages + page, blocks * pages, die, dies);
  }

  // ---------- channels and ways ----------

  function Pcw2VdieTranslation(ch: nat, way: nat, channels: nat): nat {
    ch + way * channels
  }

  function Vdie2PchTranslation(die: nat, channels: nat): nat
    requires channels > 0
  {
    die % channels
  }

  function Vdie2PwayTranslation(die: nat, channels: nat): nat
    requires channels > 0
  {
    die / channels
  }

  lemma ChannelWayRoundTrip(ch: nat, way: nat, channels: nat)
    requires ch < channels
    ensures Vdie2PchTranslation(Pcw2VdieTranslation(ch, way, channels), channels) == ch
    ensures Vdie2PwayTranslation(Pcw2VdieTranslation(ch, way, channels), channels) == way
  {
    DivModOfSum(channels, way, ch);
    assert way * channels == channels * way;
  }

  /** The two static counters of FindDieForFreeSliceAllocation: channels first, then ways. */
  class DieCursor {
    const channels: nat
    const ways: nat
    var targetCh: nat
    var targetWay: nat

    ghost predicate Valid()
      reads this
    {
      targetCh < channels && targetWay < ways
    }

    /** The die the next call returns. */
    ghost function Next(): nat
      reads this
    {
      Pcw2VdieTranslation(targetCh, targetWay, channels)
    }

    constructor (channels: nat, ways: nat)
      requires channels > 0 && ways > 0
      ensures Valid() && Next() == 0 && this.channels == channels && this.ways == ways
    {
      this.channels, this.ways := channels, ways;
      targetCh, targetWay := 0, 0;
    }

    /** Slices go to the dies in turn: 0, 1, ..., dies - 1, 0, ... */
    method FindDieForFreeSliceAllocation() returns (die: nat)
      requires Valid()
      modifies this
      ensures Valid() && die == old(Next()) < channels * ways
      ensures Next() == (die + 1) % (channels * ways)
    {
      die := Pcw2VdieTranslation(targetCh, targetWay, channels);
      CursorStep(targetCh, targetWay, channels, ways);
      if targetCh != channels - 1 {
        targetCh := targetCh + 1;
      } else {
        targetCh := 0;
        targetWay := (targetWay + 1) % ways;
      }
    }
  }

  lemma CursorStep(ch: nat, way: nat, channels: nat, ways: nat)
    requires ch < channels && way < ways
    ensures var die := Pcw2VdieTranslation(ch, way, channels);
            && die < channels * ways
            && (die + 1) % (channels * ways) ==
               if ch != channels - 1 then Pcw2VdieTranslation(ch + 1, way, channels)
               else Pcw2VdieTranslation(0, (way + 1) % ways, channels)
  {
    var die := Pcw2VdieTranslation(ch, way, channels);
    BoundedProduct(way, ways, ch, channels);
    assert channels * ways == ways * channels;
    if ch != channels - 1 {
      BoundedProduct(way, ways, ch + 1, channels);
      DivModOfSum(channels * ways, 0, die + 1);
    } else {
      assert die + 1 == (way + 1) * channels;
      if way + 1 == ways {
        DivModOfSum(channels * ways, 1, 0);
        DivModOfSum(ways, 1, 0);
      } else {
        BoundedProduct(way + 1, ways, 0, channels);
        DivModOfSum(channels * ways, 0, die + 1);
        DivModOfSum(ways, 0, way + 1);
      }
    }
  }
}
