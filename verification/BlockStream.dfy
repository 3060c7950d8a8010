/** The block section of the migration stream: blk_send's records and one turn of block_load. */
module BlockStream {
  import opened Common
  import opened Wire

  const BLOCK_SIZE: nat := 1048576

  const FLAG_DEVICE_BLOCK: nat := 0x01
  const FLAG_EOS: nat := 0x02
  const FLAG_PROGRESS: nat := 0x04

  /** A destination device: its name and its contents, a whole number of sectors. */
  datatype Device = Device(name: seq<Byte>, disk: seq<Byte>) {
    function Sectors(): nat { |disk| / SECTOR }
    predicate Valid() { |name| < 256 && 0 !in name && |disk| % SECTOR == 0 && |disk| > 0 }
  }

  datatype Outcome =
    | Loaded(devs: seq<Device>, rest: seq<Byte>, eos: bool)
    | Invalid     // -EINVAL or the error of bdrv_write
    | Truncated   // the stream ends inside a record

  function Find(devs: seq<Device>, name: seq<Byte>): (r: Option<nat>)
    ensures r.Some? ==> r.value < |devs| && devs[r.value].name == name
  {
    if devs == [] then None
    else if devs[0].name == name then Some(0)
    else match Find(devs[1..], name)
      case None => None
      case Some(i) => Some(i + 1)
  }

  /** blk_send: a full BLOCK_SIZE buffer goes out even when the last chunk of a device is shorter. */
  function Encode(name: seq<Byte>, sector: nat, buf: seq<Byte>): seq<Byte>
    requires |name| < 256 && |buf| == BLOCK_SIZE
  {
    Be(8, SECTOR * sector + FLAG_DEVICE_BLOCK) + ([|name|] + name + buf)
  }

  function Overwrite(disk: seq<Byte>, at: nat, bytes: seq<Byte>): (r: seq<Byte>)
    requires at + |bytes| <= |disk|
    ensures |r| == |disk|
  {
    disk[..at] + bytes + disk[at + |bytes|..]
  }

  /** The device-block branch of block_load: only the sectors the device has are written. */
  function LoadBlock(devs: seq<Device>, addr: nat, t: seq<Byte>, eos: bool): (o: Outcome)
    ensures o.Loaded? ==> |o.rest| <= |t|
  {
    if |t| < 1 then Truncated else
    var len := t[0] as int;
    if |t| < 1 + len then Truncated else
    match Find(devs, CString(t[1..1 + len]))
    case None => Invalid
    case Some(i) =>
      var total := devs[i].Sectors();
      var buf := t[1 + len..];
      if total == 0 then Invalid
      else if |buf| < BLOCK_SIZE then Truncated
      else if addr > total then Invalid
      else
        var nr := if total - addr < CHUNK then total - addr else CHUNK;
        var disk := Overwrite(devs[i].disk, SECTOR * addr, buf[..SECTOR * nr]);
        Loaded(devs[i := devs[i].(disk := disk)], buf[BLOCK_SIZE..], eos)
  }

  /** One turn of the loop of block_load. */
  function LoadOne(devs: seq<Device>, s: seq<Byte>): (o: Outcome)
    ensures o.Loaded? ==> |o.rest| < |s|
  {
    if |s| < 8 then Truncated else
    var h := UnBe(s[..8]);
    var flags := h % SECTOR;
    var addr := h / SECTOR;
    var eos := HasFlag(flags, FLAG_EOS);
    if HasFlag(flags, FLAG_DEVICE_BLOCK) then LoadBlock(devs, addr, s[8..], eos)
    else if HasFlag(flags, FLAG_PROGRESS) || eos then Loaded(devs, s[8..], eos)
    else Invalid
  }

  /** block_load: turns up to the end of the section. */
  function LoadSection(devs: seq<Device>, s: seq<Byte>): Outcome
    decreases |s|
  {
    var o := LoadOne(devs, s);
    if o.Loaded? && !o.eos then LoadSection(o.devs, o.rest) else o
  }

  /** Sections loaded in turn, each used up. */
  function LoadSections(devs: seq<Device>, sections: seq<seq<Byte>>): Option<seq<Device>>
    decreases |sections|
  {
    if sections == [] then Some(devs) else
    var o := LoadSection(devs, sections[0]);
    if o.Loaded? && o.eos && o.rest == [] then LoadSections(o.devs, sections[1..]) else None
  }

  /** Chunk c of a disk. */
  function ChunkOf(disk: seq<Byte>, c: nat): seq<Byte> {
    var lo := BLOCK_SIZE * c;
    if lo >= |disk| then [] else if lo + BLOCK_SIZE <= |disk| then disk[lo..lo + BLOCK_SIZE] else disk[lo..]
  }

  lemma ChunkLength(disk: seq<Byte>, c: nat)
    requires |disk| % SECTOR == 0 && BLOCK_SIZE * c < |disk|
    ensures var total := |disk| / SECTOR;
            var left := total - CHUNK * c;
            left > 0 && |ChunkOf(disk, c)| == SECTOR * (if left < CHUNK then left else CHUNK)
  {
    assert |disk| == SECTOR * (|disk| / SECTOR);
  }

  /** Overwriting a chunk replaces that chunk and no other. */
  lemma OverwriteChunk(disk: seq<Byte>, c: nat, data: seq<Byte>, e: nat)
    requires BLOCK_SIZE * c < |disk| && |data| == |ChunkOf(disk, c)|
    ensures ChunkOf(Overwrite(disk, BLOCK_SIZE * c, data), e) == if e == c then data else ChunkOf(disk, e)
  {
    var lo, disk' := BLOCK_SIZE * c, Overwrite(disk, BLOCK_SIZE * c, data);
    assert |disk'| == |disk|;
    if e < c {
      assert BLOCK_SIZE * e + BLOCK_SIZE <= lo;
    } else if e > c {
      assert lo + BLOCK_SIZE <= BLOCK_SIZE * e;
    }
    assert ChunkOf(disk', e) == if e == c then data else ChunkOf(disk, e);
  }

  /** The bytes of a block record: the first byte's address with 0x01 for a device block, the length of the name in one
      byte, the name, and the whole buffer. */
  lemma RecordBytes(name: seq<Byte>, sector: nat, buf: seq<Byte>)
    requires |name| < 256 && |buf| == BLOCK_SIZE && 512 * sector + 512 <= U64
    ensures var rec := Encode(name, sector, buf);
            && |rec| == 9 + |name| + 1048576 && UnBe(rec[..8]) == 512 * sector + 0x01
            && rec[8] == |name| && rec[9..9 + |name|] == name && rec[9 + |name|..] == buf
  {
    hide Be, UnBe;
    Be64RoundTrip(512 * sector + 1);
    var rec, w := Encode(name, sector, buf), Be(8, SECTOR * sector + FLAG_DEVICE_BLOCK);
    assert rec[..8] == w && rec[8..] == [|name|] + name + buf;
    assert rec[9..9 + |name|] == rec[8..][1..1 + |name|] && rec[9 + |name|..] == rec[8..][1 + |name|..];
  }

  /** What one header word leads to, flag by flag: 0x01 a device block, 0x04 a progress report, 0x02 the end. */
  lemma WordMeans(devs: seq<Device>, s: seq<Byte>)
    requires |s| >= 8
    ensures var h := UnBe(s[..8]);
            LoadOne(devs, s) ==
            if h % 2 == 1 then LoadBlock(devs, h / 512, s[8..], h / 2 % 2 == 1)
            else if h / 4 % 2 == 1 || h / 2 % 2 == 1 then Loaded(devs, s[8..], h / 2 % 2 == 1)
            else Invalid
  {
    hide UnBe, LoadBlock;
    LowBits(UnBe(s[..8]));
  }

  lemma LowBits(h: nat)
    ensures h % 512 / 1 % 2 == h % 2 && h % 512 / 2 % 2 == h / 2 % 2 && h % 512 / 4 % 2 == h / 4 % 2
  {
    LowBit(h / 512, h % 512, 1, 256);
    LowBit(h / 512, h % 512, 2, 128);
    LowBit(h / 512, h % 512, 4, 64);
    assert h == 512 * (h / 512) + h % 512;
  }

  /** A bit below the address is the same in the word and in its flags. */
  lemma LowBit(q: nat, r: nat, p: nat, c: nat)
    requires 0 < p <= 4 && 2 * p * c == 512
    ensures (512 * q + r) / p % 2 == r / p % 2
  {
    Scale(p, c, q);
    Split(2 * (c * q), r, p);
    EvenPart(c * q, r / p);
  }

  lemma Scale(p: nat, c: nat, q: nat)
    requires 2 * p * c == 512
    ensures p * (2 * (c * q)) == 512 * q
  {
    assert p * (2 * (c * q)) == 2 * p * c * q;
  }

  lemma Split(a: nat, r: nat, p: nat)
    requires 0 < p <= 4
    ensures (p * a + r) / p == a + r / p
  {
  }

  lemma EvenPart(a: nat, b: nat)
    ensures (2 * a + b) % 2 == b % 2
  {
  }

  /** When a block record is refused: no such device, a device without sectors, or an address past its end. */
  lemma BlockRefused(devs: seq<Device>, name: seq<Byte>, sector: nat, buf: seq<Byte>)
    requires |name| < 256 && 0 !in name && |buf| == BLOCK_SIZE && 512 * sector + 512 <= U64
    ensures LoadOne(devs, Encode(name, sector, buf)) == Invalid <==>
            var i := Find(devs, name);
            i.None? || |devs[i.value].disk| < 512 || sector > |devs[i.value].disk| / 512
  {
    hide Be, UnBe, Find;
    RecordBytes(name, sector, buf);
    var rec := Encode(name, sector, buf);
    WordMeans(devs, rec);
    var t := rec[8..];
    assert t[1..1 + |name|] == name && t[1 + |name|..] == buf;
    CStringOfPlain(name);
    assert UnBe(rec[..8]) % 2 == 1 && UnBe(rec[..8]) / 512 == sector;
  }

  lemma HeaderRoundTrip(sector: nat)
    requires SECTOR * sector + SECTOR <= U64
    ensures var h := UnBe(Be(8, SECTOR * sector + FLAG_DEVICE_BLOCK));
            h % SECTOR == FLAG_DEVICE_BLOCK && h / SECTOR == sector
  {
    hide Be, UnBe;
    Be64RoundTrip(SECTOR * sector + FLAG_DEVICE_BLOCK);
  }

  lemma BodyRoundTrip(devs: seq<Device>, i: nat, sector: nat, buf: seq<Byte>)
    requires i < |devs| && devs[i].Valid() && Find(devs, devs[i].name) == Some(i)
    requires sector < devs[i].Sectors() && |buf| == BLOCK_SIZE
    ensures var total := devs[i].Sectors();
            var nr := if total - sector < CHUNK then total - sector else CHUNK;
            LoadBlock(devs, sector, [|devs[i].name|] + devs[i].name + buf, false) ==
            Loaded(devs[i := devs[i].(disk := Overwrite(devs[i].disk, SECTOR * sector, buf[..SECTOR * nr]))], [], false)
  {
    var name := devs[i].name;
    var t := [|name|] + name + buf;
    assert t[1..1 + |name|] == name && t[1 + |name|..] == buf && buf[BLOCK_SIZE..] == [];
    CStringOfPlain(name);
  }

  /** A block record puts its chunk on the named device and touches nothing else, whatever the
      buffer holds past the end of a short last chunk. */
  lemma BlockRoundTrip(devs: seq<Device>, i: nat, c: nat, buf: seq<Byte>, e: nat)
    requires i < |devs| && devs[i].Valid() && Find(devs, devs[i].name) == Some(i)
    requires BLOCK_SIZE * c < |devs[i].disk| <= U64 && |buf| == BLOCK_SIZE
    ensures var o := LoadOne(devs, Encode(devs[i].name, CHUNK * c, buf));
            var data := buf[..|ChunkOf(devs[i].disk, c)|];
            && o.Loaded? && o.rest == [] && !o.eos && |o.devs| == |devs|
            && (forall j :: 0 <= j < |devs| && j != i ==> o.devs[j] == devs[j])
            && o.devs[i].name == devs[i].name && |o.devs[i].disk| == |devs[i].disk|
            && ChunkOf(o.devs[i].disk, e) == if e == c then data else ChunkOf(devs[i].disk, e)
  {
    hide Be, UnBe, LoadBlock, ChunkOf, Overwrite;
    var w := Be(8, SECTOR * (CHUNK * c) + FLAG_DEVICE_BLOCK);
    var t := [|devs[i].name|] + devs[i].name + buf;
    assert (w + t)[..8] == w && (w + t)[8..] == t;
    HeaderRoundTrip(CHUNK * c);
    ChunkLength(devs[i].disk, c);
    BodyRoundTrip(devs, i, CHUNK * c, buf);
    OverwriteChunk(devs[i].disk, c, buf[..|ChunkOf(devs[i].disk, c)|], e);
  }

  /** What follows a record does not change its meaning. */
  lemma LoadOneExtend(devs: seq<Device>, s: seq<Byte>, t: seq<Byte>)
    requires LoadOne(devs, s).Loaded?
    ensures LoadOne(devs, s + t) == LoadOne(devs, s).(rest := LoadOne(devs, s).rest + t)
  {
    hide LoadBlock;
    assert (s + t)[..8] == s[..8] && (s + t)[8..] == s[8..] + t;
    var h := UnBe(s[..8]);
    if HasFlag(h % SECTOR, FLAG_DEVICE_BLOCK) {
      LoadBlockExtend(devs, h / SECTOR, s[8..], HasFlag(h % SECTOR, FLAG_EOS), t);
    }
  }

  lemma LoadBlockExtend(devs: seq<Device>, addr: nat, s: seq<Byte>, eos: bool, t: seq<Byte>)
    requires LoadBlock(devs, addr, s, eos).Loaded?
    ensures LoadBlock(devs, addr, s + t, eos) ==
            LoadBlock(devs, addr, s, eos).(rest := LoadBlock(devs, addr, s, eos).rest + t)
  {
    var len := s[0] as int;
    assert (s + t)[1..1 + len] == s[1..1 + len];
    var buf := s[1 + len..];
    assert (s + t)[1 + len..] == buf + t;
    assert (buf + t)[BLOCK_SIZE..] == buf[BLOCK_SIZE..] + t;
    var total := devs[Find(devs, CString(s[1..1 + len])).value].Sectors();
    var nr := if total - addr < CHUNK then total - addr else CHUNK;
    assert (buf + t)[..SECTOR * nr] == buf[..SECTOR * nr];
  }
}
