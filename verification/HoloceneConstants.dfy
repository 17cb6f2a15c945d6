/** The constants of the Holocene migration. */
module HoloceneConstants {
  import opened Primitives
  import opened ByteCodec

  const MAINNET_TOKENS_ADDRESSES: seq<Address> := [
    0xfc00000000000000000000000000000000000002,  // FXS
    0xfc00000000000000000000000000000000000003,  // FPI
    0xfc00000000000000000000000000000000000004,  // FPIS
    0xfc00000000000000000000000000000000000005,  // sfrxETH
    0xfc00000000000000000000000000000000000006,  // wfrxETH
    0xfc00000000000000000000000000000000000007,  // frxBTC
    0xacA9A33698cF96413A40A4eB9E87906ff40fC6CA,  // FXB2025
    0x6c9f4E6089c8890AfEE2bcBA364C2712f88fA818,  // FXB2027
    0xF1e2b576aF4C6a7eE966b14C810b772391e92153,  // FXB2029
    0xc38173D34afaEA88Bc482813B3CD267bc8A1EA83  // FXB2055
  ]

  const TESTNET_TOKENS_ADDRESSES: seq<Address> := [
    0xfc00000000000000000000000000000000000002,  // FXS
    0xfc00000000000000000000000000000000000003,  // FPI
    0xfc00000000000000000000000000000000000004,  // FPIS
    0xfc00000000000000000000000000000000000005,  // sfrxETH
    0xfc00000000000000000000000000000000000006  // wfrxETH
  ]

  const DEVNET_TOKENS_ADDRESSES: seq<Address> := [
    0xfc00000000000000000000000000000000000002,  // FXS
    0xfc00000000000000000000000000000000000003,  // FPI
    0xfc00000000000000000000000000000000000004,  // FPIS
    0xfc00000000000000000000000000000000000005,  // sfrxETH
    0xfc00000000000000000000000000000000000006,  // wfrxETH
    0xfc00000000000000000000000000000000000007  // frxBTC
  ]

  const PROXY_ADDR: Address := 0xfc0000000000000000000000000000000000000a
  const PROXY_ADMIN_ADDR: Address := 0xfc0000000000000000000000000000000000000a

  datatype ByteCodeChange = ByteCodeChange(address: Address, offset: nat, value: Bytes)

  // Two words of code: the length of a name and its characters.
  function Naming(length: Word, text: Word): Bytes {
    ToBigEndian(length, 32) + ToBigEndian(text, 32)
  }

  const MAINNET_NAMING_BYTECODE_CHANGES: seq<ByteCodeChange> := [
    ByteCodeChange(
      0x63Eb7846642630456707C3efBb50A03c79B89D81, 23761,
      Naming(13, 0x6372765553442f66727855534400000000000000000000000000000000000000)),
    ByteCodeChange(
      0x385540FdA649A114Ffeb943fD73ae82cE7908Da3, 23761,
      Naming(11, 0x6672785553442f73444149000000000000000000000000000000000000000000)),
    ByteCodeChange(
      0x1e199DbE1f7aa237282fE941d5Bcc3b167c8Ce48, 23761,
      Naming(11, 0x6672785553442f55534465000000000000000000000000000000000000000000)),
    ByteCodeChange(
      0x8b4E5263E8D6cc0bbF31EDF14491fc6077B88229, 23761,
      Naming(12, 0x6672785553442f73555344650000000000000000000000000000000000000000)),
    ByteCodeChange(
      0xeE454138083b9B9714cac3c7cF12560248d76D6B, 23761,
      Naming(17, 0x6672785553444658423230323931323331000000000000000000000000000000)),
    ByteCodeChange(
      0x4Cfc391d75c43Cf1Bdb368e8bF680AEd1228df39, 23761,
      Naming(17, 0x6672785553444658423230353531323331000000000000000000000000000000)),
    ByteCodeChange(
      0x63d64A76C2D616676CBAC3068D3C6548F8485314, 23761,
      Naming(17, 0x6672785553444658423230323531323331000000000000000000000000000000)),
    ByteCodeChange(
      0x9CA648D2f51098941688Db9a0beb1DadC2D1B357, 23761,
      Naming(11, 0x6672785553442f64555344000000000000000000000000000000000000000000)),
    ByteCodeChange(
      0xbC3705b2bfD42d38e8FA2c8EFDC3Fdda645C3b2a, 23761,
      Naming(17, 0x6672785553444658423230323631323331000000000000000000000000000000)),
    ByteCodeChange(
      0xcAEF324bea3Ff5c7a08710081294F3344fFAdC54, 23761,
      Naming(11, 0x6672785553442f55534454000000000000000000000000000000000000000000)),
    ByteCodeChange(
      0xa8eB7B41fe8dF7Ea3de982397AD183721784D987, 23761,
      Naming(11, 0x6672785553442f55534443000000000000000000000000000000000000000000)),
    ByteCodeChange(
      0x86d7FA03a70c428D3E28092F4509a16f16eC5b7C, 23761,
      Naming(10, 0x6672785553442f44414900000000000000000000000000000000000000000000)),
    ByteCodeChange(
      0x35c6c59277f8fA9Ae98dea29b0546D79957ACDd8, 23761,
      Naming(12, 0x6672785553442f50595553440000000000000000000000000000000000000000)),
    ByteCodeChange(
      0xDa73dC70D5ca3F51b0000C308abcd358b5F3FEFe, 18067,
      Naming(11, 0x564348462f667278555344000000000000000000000000000000000000000000)),
    ByteCodeChange(
      0x77146B0a1d08B6844376dF6d9da99bA7F1b19e71, 18067,
      Naming(11, 0x564555522f667278555344000000000000000000000000000000000000000000))
  ]

  datatype StorageChange = StorageChange(address: Address, storageSlot: Word, value: Word)

  // The storage records come contract by contract: the slots of one contract and their values.
  datatype NamingGroup = NamingGroup(address: Address, slots: seq<Word>, values: seq<Word>)

  const SHORT_GAUGE_SLOTS: seq<Word> := [3, 4]
  const GAUGE_SLOTS: seq<Word> := [3, 4, 5]
  const LATE_GAUGE_SLOTS: seq<Word> := [5, 6, 7]
  const PAIR_SLOTS: seq<Word> := [
    21,
    0x55f448fdea98c4d29eb340757ef0a66cd03dbb9538908a6a81d96026b71ec475,
    0x55f448fdea98c4d29eb340757ef0a66cd03dbb9538908a6a81d96026b71ec476,
    0x55f448fdea98c4d29eb340757ef0a66cd03dbb9538908a6a81d96026b71ec477,
    0x55f448fdea98c4d29eb340757ef0a66cd03dbb9538908a6a81d96026b71ec478,
    22
  ]

  const MAINNET_NAMING_GROUPS: seq<NamingGroup> := [
    NamingGroup(
      0x98a6C35546be6F7c545c99EfB48F4673eD2c99fc, GAUGE_SLOTS,
      [35,
       0x43757276652e666920637276555344667278555344204761756765204465706f,
       0x7369740000000000000000000000000000000000000000000000000000000000]),
    NamingGroup(
      0xcdBfCBf18D504F5BD6b29Bac5d91405F9f59980F, GAUGE_SLOTS,
      [33,
       0x43757276652e66692066727855534473444149204761756765204465706f7369,
       0x7400000000000000000000000000000000000000000000000000000000000000]),
    NamingGroup(
      0x86A79cEE2734E5357FF6B5495c4a30915921223a, GAUGE_SLOTS,
      [33,
       0x43757276652e66692066727855534455534465204761756765204465706f7369,
       0x7400000000000000000000000000000000000000000000000000000000000000]),
    NamingGroup(
      0x59005665c5060D3abEE291A21DE0375cf1BBed03, GAUGE_SLOTS,
      [34,
       0x43757276652e6669206672785553447355534465204761756765204465706f73,
       0x6974000000000000000000000000000000000000000000000000000000000000]),
    NamingGroup(
      0xaa1bDFfAb337c11c34AfB56eee1Da95cc3D09A65, SHORT_GAUGE_SLOTS,
      [32,
       0x43757276652e666920465842323631323331204761756765204465706f736974]),
    NamingGroup(
      0x7bA1e40dAe22847E6c521bA297d40fF1c5fD97dd, SHORT_GAUGE_SLOTS,
      [32,
       0x43757276652e666920465842353531323331204761756765204465706f736974]),
    NamingGroup(
      0xaA45cD0b2d22df00832Ae70D9DB8EBadAB176a60, SHORT_GAUGE_SLOTS,
      [32,
       0x43757276652e666920465842323531323331204761756765204465706f736974]),
    NamingGroup(
      0x48100238C4a3CF44cFbF6C7693eD5C216881fAcE, SHORT_GAUGE_SLOTS,
      [32,
       0x43757276652e666920465842323931323331204761756765204465706f736974]),
    NamingGroup(
      0xE049AA6fbd64210bDEddC15F5a861084E6eE8b57, GAUGE_SLOTS,
      [33,
       0x43757276652e66692066727855534455534454204761756765204465706f7369,
       0x7400000000000000000000000000000000000000000000000000000000000000]),
    NamingGroup(
      0xAA6dDbA00DE48D41E41543eF0a78AB31aae4dE8d, GAUGE_SLOTS,
      [33,
       0x43757276652e66692066727855534455534443204761756765204465706f7369,
       0x7400000000000000000000000000000000000000000000000000000000000000]),
    NamingGroup(
      0x64100c172D5DC8007E3ee701ECD99468619B6583, SHORT_GAUGE_SLOTS,
      [32,
       0x43757276652e666920667278555344444149204761756765204465706f736974]),
    NamingGroup(
      0x72Bd89F2E3470fA5d188cF04eda17E8145eb4BF1, GAUGE_SLOTS,
      [34,
       0x43757276652e6669206672785553445059555344204761756765204465706f73,
       0x6974000000000000000000000000000000000000000000000000000000000000]),
    NamingGroup(
      0x05600c37D54a4F3cDc76E0867aF1530BeCC332ca, LATE_GAUGE_SLOTS,
      [33,
       0x43757276652e66692066727855534464555344204761756765204465706f7369,
       0x7400000000000000000000000000000000000000000000000000000000000000]),
    NamingGroup(
      0xC87e5bCf1aF32E5231d708c27271EA2474464a61, LATE_GAUGE_SLOTS,
      [33,
       0x43757276652e66692056434846667278555344204761756765204465706f7369,
       0x7400000000000000000000000000000000000000000000000000000000000000]),
    NamingGroup(
      0xD3bAA7b2dcA8F6b272416312CC5f413F9bd0e624, LATE_GAUGE_SLOTS,
      [33,
       0x43757276652e66692056455552667278555344204761756765204465706f7369,
       0x7400000000000000000000000000000000000000000000000000000000000000]),
    NamingGroup(
      0x032578d99b1070682a5E171012BE1756a50a17d4, PAIR_SLOTS,
      [215,
       0x467261786c656e6420496e7465726573742042656172696e6720667278555344,
       0x20284658425f345f44454333313230323629202d203100000000000000000000,
       0,
       0,
       0x66667278555344284658425f3230323631323331292d3100000000000000002e]),
    NamingGroup(
      0x1b48c9595385F1780d7Be1aB57f8eAcFeA3A5cE5, PAIR_SLOTS,
      [203,
       0x467261786c656e6420496e7465726573742042656172696e6720667278555344,
       0x2028465842323032353132333129202d20313200000000000000000000000000,
       0,
       0,
       0x66667278555344284658423230323531323331292d313200000000000000002e]),
    NamingGroup(
      0x3e92765eE2B009b104A8A7baf3759B159c19AbA1, PAIR_SLOTS,
      [203,
       0x467261786c656e6420496e7465726573742042656172696e6720667278555344,
       0x2028465842323032393132333129202d20313100000000000000000000000000,
       0,
       0,
       0x66667278555344284658423230323931323331292d313100000000000000002e]),
    NamingGroup(
      0x4F968317721B9c300afBff3FD37365637318271D, PAIR_SLOTS,
      [223,
       0x467261786c656e6420496e7465726573742042656172696e6720667278555344,
       0x20285374616b6564204672617820457468657229202d20380000000000000000,
       0,
       0,
       0x666672785553442873667278455448292d380000000000000000000000000024]),
    NamingGroup(
      0x8EdA613EC96992D3C42BCd9aC2Ae58a92929Ceb2, PAIR_SLOTS,
      [195,
       0x467261786c656e6420496e7465726573742042656172696e6720667278555344,
       0x20284672617820536861726529202d2039000000000000000000000000000000,
       0,
       0,
       0x6666727855534428465853292d3900000000000000000000000000000000001c]),
    NamingGroup(
      0xb2d53dF70181FbE783f84B74F58E38cC1Ca8528d, PAIR_SLOTS,
      [223,
       0x467261786c656e6420496e7465726573742042656172696e6720667278555344,
       0x20284672617820507269636520496e64657829202d2031360000000000000000,
       0,
       0,
       0x6666727855534428465049292d3136000000000000000000000000000000001e]),
    NamingGroup(
      0xB71E4829e81f72f7F36A0d858e58109f5948A713, PAIR_SLOTS,
      [219,
       0x467261786c656e6420496e7465726573742042656172696e6720736672784554,
       0x4820285374616b656420467261782055534429202d2031300000000000000000,
       0,
       0,
       0x66736672784554482873667278555344292d3130000000000000000000000028])
  ]

  function Records(g: NamingGroup): (r: seq<StorageChange>)
    requires |g.slots| == |g.values|
    ensures |r| == |g.slots|
    ensures forall i :: 0 <= i < |r| ==> r[i] == StorageChange(g.address, g.slots[i], g.values[i])
  {
    seq(|g.slots|, i requires 0 <= i < |g.slots| => StorageChange(g.address, g.slots[i], g.values[i]))
  }

  predicate WellFormed(groups: seq<NamingGroup>) {
    forall i :: 0 <= i < |groups| ==> |groups[i].slots| == |groups[i].values|
  }

  function AllRecords(groups: seq<NamingGroup>): seq<StorageChange>
    requires WellFormed(groups)
  {
    if groups == [] then [] else Records(groups[0]) + AllRecords(groups[1..])
  }

  const MAINNET_NAMING_STORAGE_CHANGES: seq<StorageChange> := AllRecords(MAINNET_NAMING_GROUPS)
}
