/** The persistent record of boards/v4/firmware/regular_mode/firmware: byte-wise `get` and `put` (EEPROM.h), the
    field layout, initialisation and boot logs (Record.cpp).

    A memory is a sequence of bytes; an operation is the sequence of byte writes it makes, so a power loss inside an
    operation leaves a prefix of its writes. `unsigned long`, `unsigned int` and `time_t` are four bytes.
 */
module Storage {
  import opened Machine

  const SIZE := 4096

  type Memory = m: seq<Byte> | |m| == SIZE witness seq(SIZE, _ => 0)

  datatype Write = Write(addr: nat, value: Byte)

  predicate InBounds(ws: seq<Write>) {
    forall i :: 0 <= i < |ws| ==> ws[i].addr < SIZE
  }

  function Replay(mem: Memory, ws: seq<Write>): Memory
    requires InBounds(ws)
    decreases |ws|
  {
    if ws == [] then mem
    else Replay(mem, ws[..|ws| - 1])[ws[|ws| - 1].addr := ws[|ws| - 1].value]
  }

  lemma {:induction false} ReplayConcat(mem: Memory, a: seq<Write>, b: seq<Write>)
    requires InBounds(a) && InBounds(b)
    ensures InBounds(a + b) && Replay(mem, a + b) == Replay(Replay(mem, a), b)
    decreases |b|
  {
    if b == [] {
      assert a + b == a;
    } else {
      var c := b[..|b| - 1];
      ReplayConcat(mem, a, c);
      assert (a + b)[..|a + b| - 1] == a + c;
    }
  }

  /** A byte no write addresses keeps its value. */
  lemma {:induction false} ReplayFrame(mem: Memory, ws: seq<Write>, addr: nat)
    requires InBounds(ws) && addr < SIZE
    requires forall i :: 0 <= i < |ws| ==> ws[i].addr != addr
    ensures Replay(mem, ws)[addr] == mem[addr]
    decreases |ws|
  {
    if ws != [] {
      ReplayFrame(mem, ws[..|ws| - 1], addr);
    }
  }

  // ----- bytes of a value, least significant first

  function Range(width: nat): nat {
    if width == 0 then 1 else 256 * Range(width - 1)
  }

  function ToBytes(v: nat, width: nat): (bs: seq<Byte>)
    ensures |bs| == width
  {
    if width == 0 then [] else [v % 256] + ToBytes(v / 256, width - 1)
  }

  function FromBytes(bs: seq<Byte>): nat {
    if bs == [] then 0 else bs[0] + 256 * FromBytes(bs[1..])
  }

  lemma {:induction false} BytesRoundTrip(v: nat, width: nat)
    requires v < Range(width)
    ensures FromBytes(ToBytes(v, width)) == v
  {
    if width > 0 {
      BytesRoundTrip(v / 256, width - 1);
      assert ToBytes(v, width)[1..] == ToBytes(v / 256, width - 1);
    }
  }

  // ----- the layout

  datatype Field =
    | Magic
    | HardwareVersion
    | FirmwareVersion
    | BootCount
    | LastBootTime
    | WireEnabled
    | BootloaderNodeController
    | Enabled(port: nat)
    | PortLastBootTime(port: nat)
    | BootAttempts(port: nat)
    | BootFailures(port: nat)
    | ThermistorHealth(port: nat)
    | CurrentHealth(port: nat)
    | RelayJournal(port: nat)
    | LogStart(port: nat)
    | LogCount(port: nat)
    | LogEntry(port: nat, slot: nat)

  predicate Global(f: Field) {
    f.Magic? || f.HardwareVersion? || f.FirmwareVersion? || f.BootCount? || f.LastBootTime? || f.WireEnabled?
    || f.BootloaderNodeController?
  }

  predicate ValidField(f: Field) {
    Global(f) || (f.port < 5 && (f.LogEntry? ==> f.slot < 8))
  }

  function DeviceRegion(port: nat): nat {
    256 + port * 128
  }

  function Offset(f: Field): (n: nat)
    requires ValidField(f)
    ensures n + Width(f) <= 128
  {
    match f
    case Magic => 0
    case HardwareVersion => 4
    case FirmwareVersion => 6
    case BootCount => 8
    case LastBootTime => 12
    case WireEnabled => 32
    case BootloaderNodeController => 0x40
    case Enabled(_) => 0
    case PortLastBootTime(_) => 3
    case BootAttempts(_) => 7
    case BootFailures(_) => 11
    case ThermistorHealth(_) => 15
    case CurrentHealth(_) => 20
    case RelayJournal(_) => 38
    case LogStart(_) => 64
    case LogCount(_) => 65
    case LogEntry(_, slot) => 66 + 4 * slot
  }

  function Width(f: Field): nat {
    match f
    case Magic => 4
    case HardwareVersion => 2
    case FirmwareVersion => 2
    case BootCount => 4
    case LastBootTime => 4
    case PortLastBootTime(_) => 4
    case BootAttempts(_) => 4
    case BootFailures(_) => 4
    case LogEntry(_, _) => 4
    case _ => 1
  }

  function Addr(f: Field): (a: nat)
    requires ValidField(f)
    ensures a + Width(f) <= 896
  {
    (if Global(f) then 0 else DeviceRegion(f.port)) + Offset(f)
  }

  /** All persisted fields of the globals and the five ports occupy pairwise disjoint bytes. */
  lemma FieldsDisjoint(f: Field, g: Field)
    requires ValidField(f) && ValidField(g) && f != g
    ensures Addr(f) + Width(f) <= Addr(g) || Addr(g) + Width(g) <= Addr(f)
  {
    if Global(f) == Global(g) && (Global(f) || f.port == g.port) {
      OffsetsDisjoint(f, g);
    }
  }

  lemma OffsetsDisjoint(f: Field, g: Field)
    requires ValidField(f) && ValidField(g) && f != g
    requires Global(f) == Global(g) && (Global(f) || f.port == g.port)
    ensures Offset(f) + Width(f) <= Offset(g) || Offset(g) + Width(g) <= Offset(f)
  {
  }

  /** Four bytes of memory as a number, low byte first. */
  function FourBytes(mem: Memory, a: nat): nat
    requires a + 4 <= SIZE
  {
    mem[a] + 0x100 * (mem[a + 1] as int) + 0x1_0000 * (mem[a + 2] as int) + 0x100_0000 * (mem[a + 3] as int)
  }

  // ----- getting and setting a field

  function Read(mem: Memory, f: Field): nat
    requires ValidField(f)
  {
    FromBytes(mem[Addr(f)..Addr(f) + Width(f)])
  }

  lemma FourByteField(mem: Memory, f: Field)
    requires ValidField(f) && Width(f) == 4
    ensures Read(mem, f) == FourBytes(mem, Addr(f))
  {
    var a := Addr(f);
    var bs := mem[a..a + 4];
    assert bs[0] == mem[a] && bs[1] == mem[a + 1] && bs[2] == mem[a + 2] && bs[3] == mem[a + 3];
    FromFourBytes(bs);
  }

  lemma FromFourBytes(bs: seq<Byte>)
    requires |bs| == 4
    ensures FromBytes(bs)
        == bs[0] + 0x100 * (bs[1] as int) + 0x1_0000 * (bs[2] as int) + 0x100_0000 * (bs[3] as int)
  {
    var c := bs[1..];
    var d := c[1..];
    var e := d[1..];
    assert c[0] == bs[1] && d[0] == bs[2] && e[0] == bs[3] && e[1..] == [];
    assert FromBytes(e) == e[0];
    assert FromBytes(d) == d[0] + 256 * FromBytes(e);
    assert FromBytes(c) == c[0] + 256 * FromBytes(d);
    assert FromBytes(bs) == bs[0] + 256 * FromBytes(c);
  }

  lemma OneByte(mem: Memory, f: Field)
    requires ValidField(f) && Width(f) == 1
    ensures Read(mem, f) == mem[Addr(f)]
  {
    var bs := mem[Addr(f)..Addr(f) + 1];
    assert bs[0] == mem[Addr(f)] && FromBytes(bs[1..]) == 0;
  }

  lemma TwoBytes(mem: Memory, f: Field)
    requires ValidField(f) && Width(f) == 2
    ensures mem[Addr(f)] == Read(mem, f) % 256 && mem[Addr(f) + 1] == Read(mem, f) / 256
  {
    var bs := mem[Addr(f)..Addr(f) + 2];
    assert bs[0] == mem[Addr(f)] && bs[1..][0] == mem[Addr(f) + 1] && FromBytes(bs[1..][1..]) == 0;
    assert FromBytes(bs[1..]) == mem[Addr(f) + 1];
  }

  /** The format of the record, in bytes: what each getter reads of the globals. */
  lemma GlobalFormat(mem: Memory)
    ensures Read(mem, Magic) == FourBytes(mem, 0)
    ensures Read(mem, HardwareVersion) % 256 == mem[4] && Read(mem, HardwareVersion) / 256 == mem[5]
    ensures Read(mem, FirmwareVersion) % 256 == mem[6] && Read(mem, FirmwareVersion) / 256 == mem[7]
    ensures Read(mem, BootCount) == FourBytes(mem, 8) && Read(mem, LastBootTime) == FourBytes(mem, 12)
    ensures Read(mem, WireEnabled) == mem[32] && Read(mem, BootloaderNodeController) == mem[64]
  {
    hide Read, FourBytes;
    FourByteField(mem, Magic);
    TwoBytes(mem, HardwareVersion);
    TwoBytes(mem, FirmwareVersion);
    FourByteField(mem, BootCount);
    FourByteField(mem, LastBootTime);
    OneByte(mem, WireEnabled);
    OneByte(mem, BootloaderNodeController);
  }

  /** And what each getter reads of a port. */
  lemma PortFormat(mem: Memory, port: nat, slot: nat)
    requires port < 5 && slot < 8
    ensures var a := 256 + 128 * port;
            && Read(mem, Enabled(port)) == mem[a]
            && Read(mem, PortLastBootTime(port)) == FourBytes(mem, a + 3)
            && Read(mem, BootAttempts(port)) == FourBytes(mem, a + 7)
            && Read(mem, BootFailures(port)) == FourBytes(mem, a + 11)
            && Read(mem, ThermistorHealth(port)) == mem[a + 15] && Read(mem, CurrentHealth(port)) == mem[a + 20]
            && Read(mem, RelayJournal(port)) == mem[a + 38]
            && Read(mem, LogStart(port)) == mem[a + 64] && Read(mem, LogCount(port)) == mem[a + 65]
            && Read(mem, LogEntry(port, slot)) == FourBytes(mem, a + 66 + 4 * slot)
  {
    hide Read, FourBytes;
    OneByte(mem, Enabled(port));
    FourByteField(mem, PortLastBootTime(port));
    FourByteField(mem, BootAttempts(port));
    FourByteField(mem, BootFailures(port));
    OneByte(mem, ThermistorHealth(port));
    OneByte(mem, CurrentHealth(port));
    OneByte(mem, RelayJournal(port));
    OneByte(mem, LogStart(port));
    OneByte(mem, LogCount(port));
    FourByteField(mem, LogEntry(port, slot));
  }

  /** The byte writes of `put`. */
  function PutWrites(addr: nat, bs: seq<Byte>): (ws: seq<Write>)
    ensures |ws| == |bs|
    ensures forall i :: 0 <= i < |ws| ==> ws[i] == Write(addr + i, bs[i])
  {
    seq(|bs|, i requires 0 <= i < |bs| => Write(addr + i, bs[i]))
  }

  function SetWrites(f: Field, v: nat): (ws: seq<Write>)
    requires ValidField(f)
    ensures InBounds(ws) && |ws| == Width(f)
  {
    PutWrites(Addr(f), ToBytes(v, Width(f)))
  }

  /** Replaying the first k bytes of a `put`. */
  lemma {:induction false} ReplayPut(mem: Memory, addr: nat, bs: seq<Byte>, k: nat)
    requires addr + |bs| <= SIZE && k <= |bs|
    ensures InBounds(PutWrites(addr, bs)[..k])
    ensures Replay(mem, PutWrites(addr, bs)[..k]) == mem[..addr] + bs[..k] + mem[addr + k..]
  {
    var ws := PutWrites(addr, bs);
    if k > 0 {
      ReplayPut(mem, addr, bs, k - 1);
      assert ws[..k][..k - 1] == ws[..k - 1];
      assert bs[..k] == bs[..k - 1] + [bs[k - 1]];
    }
  }

  /** A setter reads back. */
  lemma SetThenRead(mem: Memory, f: Field, v: nat)
    requires ValidField(f) && v < Range(Width(f))
    ensures Read(Replay(mem, SetWrites(f, v)), f) == v
  {
    hide Offset, Addr, Width;
    var bs, a := ToBytes(v, Width(f)), Addr(f);
    ReplayPut(mem, a, bs, |bs|);
    assert SetWrites(f, v)[..|bs|] == SetWrites(f, v);
    assert Replay(mem, SetWrites(f, v))[a..a + Width(f)] == bs;
    BytesRoundTrip(v, Width(f));
  }

  lemma PutFrames(mem: Memory, addr: nat, bs: seq<Byte>, k: nat, a: nat, w: nat)
    requires addr + |bs| <= SIZE && k <= |bs| && a + w <= SIZE
    requires addr + |bs| <= a || a + w <= addr
    ensures InBounds(PutWrites(addr, bs)[..k])
    ensures Replay(mem, PutWrites(addr, bs)[..k])[a..a + w] == mem[a..a + w]
  {
    hide Replay, PutWrites;
    ReplayPut(mem, addr, bs, k);
    var after := mem[..addr] + bs[..k] + mem[addr + k..];
    forall i | a <= i < a + w
      ensures after[i] == mem[i]
    {
    }
    assert after[a..a + w] == mem[a..a + w];
  }

  /** A setter, stopped after any number of its bytes, leaves every other field alone. */
  lemma SetFrames(mem: Memory, f: Field, v: nat, k: nat, g: Field)
    requires ValidField(f) && ValidField(g) && f != g && k <= Width(f)
    ensures InBounds(SetWrites(f, v)[..k])
    ensures Read(Replay(mem, SetWrites(f, v)[..k]), g) == Read(mem, g)
  {
    FieldsDisjoint(f, g);
    hide Offset, Addr, Width, Replay;
    PutFrames(mem, Addr(f), ToBytes(v, Width(f)), k, Addr(g), Width(g));
  }

  // ----- initialisation

  const MAGIC := 0xADA1ADA1

  predicate Initialized(mem: Memory) {
    Read(mem, Magic) == MAGIC
  }

  function Default(f: Field): nat {
    match f
    case Magic => MAGIC
    case HardwareVersion => 3 + 256 * 1
    case FirmwareVersion => 1
    case WireEnabled => 1
    case Enabled(port) => if port <= 2 then 1 else 0
    case _ => 0
  }

  lemma DefaultFits(f: Field)
    ensures Default(f) < Range(Width(f))
  {
    assert Range(1) == 256 && Range(2) == 65536 && Range(3) == 0x100_0000 && Range(4) == 0x1_0000_0000;
  }

  function GlobalFields(): seq<Field> {
    [BootCount, LastBootTime, HardwareVersion, FirmwareVersion, WireEnabled]
  }

  function PortFields(port: nat): seq<Field> {
    [BootAttempts(port), BootFailures(port), RelayJournal(port), CurrentHealth(port), ThermistorHealth(port),
     LogStart(port), LogCount(port)]
  }

  function AllPortFields(n: nat): seq<Field> {
    if n == 0 then [] else AllPortFields(n - 1) + PortFields(n - 1)
  }

  function EnableFields(): seq<Field> {
    [Enabled(0), Enabled(1), Enabled(2), Enabled(3), Enabled(4), BootloaderNodeController]
  }

  /** The fields `init` writes before the magic word, in order. */
  function BodyFields(): (fs: seq<Field>)
    ensures forall i :: 0 <= i < |fs| ==> ValidField(fs[i]) && fs[i] != Magic
  {
    AllPortFieldsValid(5);
    GlobalFields() + AllPortFields(5) + EnableFields()
  }

  lemma {:induction false} AllPortFieldsValid(n: nat)
    requires n <= 5
    ensures forall i :: 0 <= i < |AllPortFields(n)| ==> ValidField(AllPortFields(n)[i]) && AllPortFields(n)[i] != Magic
  {
    if n > 0 {
      AllPortFieldsValid(n - 1);
    }
  }

  predicate ValidFields(fs: seq<Field>) {
    forall i :: 0 <= i < |fs| ==> ValidField(fs[i])
  }

  function DefaultWrites(fs: seq<Field>): (ws: seq<Write>)
    requires ValidFields(fs)
    ensures InBounds(ws)
  {
    if fs == [] then []
    else DefaultWrites(fs[..|fs| - 1]) + SetWrites(fs[|fs| - 1], Default(fs[|fs| - 1]))
  }

  lemma Reassociate<T>(a: seq<T>, b: seq<T>, c: seq<T>)
    ensures (a + b) + c == a + (b + c)
  {
  }

  lemma SplitLast<T>(a: seq<T>, b: seq<T>)
    requires b != []
    ensures b == b[..|b| - 1] + [b[|b| - 1]] && a + b == (a + b[..|b| - 1]) + [b[|b| - 1]]
  {
  }

  lemma {:induction false} DefaultWritesConcat(a: seq<Field>, b: seq<Field>)
    requires ValidFields(a) && ValidFields(b)
    ensures ValidFields(a + b) && DefaultWrites(a + b) == DefaultWrites(a) + DefaultWrites(b)
    decreases |b|
  {
    if b == [] {
      assert a + b == a && DefaultWrites(b) == [];
    } else {
      hide SetWrites, ValidField, Default, InBounds, DefaultWrites;
      var c, f := b[..|b| - 1], b[|b| - 1];
      SplitLast(a, b);
      DefaultWritesConcat(a, c);
      hide ValidFields;
      DefaultWritesSnoc(c, f);
      DefaultWritesSnoc(a + c, f);
      Reassociate(DefaultWrites(a), DefaultWrites(c), SetWrites(f, Default(f)));
    }
  }

  lemma DefaultWritesSnoc(fs: seq<Field>, f: Field)
    requires ValidFields(fs) && ValidField(f)
    ensures ValidFields(fs + [f]) && DefaultWrites(fs + [f]) == DefaultWrites(fs) + SetWrites(f, Default(f))
  {
    hide SetWrites, ValidField, Default;
    assert (fs + [f])[..|fs|] == fs;
  }

  predicate Defaulted(mem: Memory, fs: seq<Field>)
    requires ValidFields(fs)
  {
    forall i :: 0 <= i < |fs| ==> Read(mem, fs[i]) == Default(fs[i])
  }

  lemma SetDefault(mem: Memory, f: Field, g: Field)
    requires ValidField(f) && ValidField(g)
    ensures Read(Replay(mem, SetWrites(f, Default(f))), g) == if g == f then Default(f) else Read(mem, g)
  {
    hide Read, SetWrites, ValidField, Default, Replay;
    if g == f {
      DefaultFits(f);
      SetThenRead(mem, f, Default(f));
    } else {
      SetFrames(mem, f, Default(f), Width(f), g);
      assert SetWrites(f, Default(f))[..Width(f)] == SetWrites(f, Default(f));
    }
  }

  lemma {:induction false} DefaultWritesSetAt(mem: Memory, fs: seq<Field>, i: nat)
    requires ValidFields(fs) && i < |fs|
    ensures Read(Replay(mem, DefaultWrites(fs)), fs[i]) == Default(fs[i])
    decreases |fs|
  {
    hide Read, SetWrites, ValidField, Default, Replay, InBounds;
    var rest, f := fs[..|fs| - 1], fs[|fs| - 1];
    ReplayConcat(mem, DefaultWrites(rest), SetWrites(f, Default(f)));
    SetDefault(Replay(mem, DefaultWrites(rest)), f, fs[i]);
    if i < |rest| {
      DefaultWritesSetAt(mem, rest, i);
    }
  }

  /** Writing the defaults of a list of fields sets them all. */
  lemma DefaultWritesSet(mem: Memory, fs: seq<Field>)
    requires ValidFields(fs)
    ensures Defaulted(Replay(mem, DefaultWrites(fs)), fs)
  {
    hide Read, Replay, DefaultWrites, Default, ValidField;
    forall i | 0 <= i < |fs|
      ensures Read(Replay(mem, DefaultWrites(fs)), fs[i]) == Default(fs[i])
    {
      DefaultWritesSetAt(mem, fs, i);
    }
  }

  /** No write of a field other than the magic word touches its four bytes. */
  lemma {:induction false} DefaultWritesAvoidMagic(fs: seq<Field>)
    requires ValidFields(fs) && (forall i :: 0 <= i < |fs| ==> fs[i] != Magic)
    ensures forall i :: 0 <= i < |DefaultWrites(fs)| ==> DefaultWrites(fs)[i].addr >= 4
    decreases |fs|
  {
    if fs != [] {
      DefaultWritesAvoidMagic(fs[..|fs| - 1]);
      FieldsDisjoint(Magic, fs[|fs| - 1]);
    }
  }

  /** The byte writes of `init`: the magic word comes last. */
  function InitWrites(): (ws: seq<Write>)
    ensures InBounds(ws)
  {
    DefaultWrites(BodyFields()) + SetWrites(Magic, MAGIC)
  }

  predicate AllDefaults(mem: Memory) {
    Defaulted(mem, BodyFields())
  }

  /** A port of a new record: everything zero, and the first three ports enabled. */
  predicate NewPort(mem: Memory, port: nat)
    requires port < 5
  {
    && Read(mem, BootAttempts(port)) == 0 && Read(mem, BootFailures(port)) == 0
    && Read(mem, RelayJournal(port)) == 0
    && Read(mem, CurrentHealth(port)) == 0 && Read(mem, ThermistorHealth(port)) == 0
    && Read(mem, LogStart(port)) == 0 && Read(mem, LogCount(port)) == 0
    && Read(mem, Enabled(port)) == if port <= 2 then 1 else 0
  }

  /** The values of a new record: hardware version 3.1, firmware version 1.0, the bus enabled. Versions are stored with
      their major number in the low byte. */
  predicate NewRecord(mem: Memory) {
    && Read(mem, BootCount) == 0 && Read(mem, LastBootTime) == 0
    && Read(mem, HardwareVersion) % 256 == 3 && Read(mem, HardwareVersion) / 256 == 1
    && Read(mem, FirmwareVersion) % 256 == 1 && Read(mem, FirmwareVersion) / 256 == 0
    && Read(mem, WireEnabled) == 1 && Read(mem, BootloaderNodeController) == 0
    && forall port :: 0 <= port < 5 ==> NewPort(mem, port)
  }

  lemma {:induction false} PortFieldAt(n: nat, port: nat, j: nat)
    requires port < n && j < 7
    ensures |AllPortFields(n)| == 7 * n && AllPortFields(n)[7 * port + j] == PortFields(port)[j]
  {
    PortFieldCount(n - 1);
    if port < n - 1 {
      PortFieldAt(n - 1, port, j);
    }
  }

  lemma {:induction false} PortFieldCount(n: nat)
    ensures |AllPortFields(n)| == 7 * n
  {
    if n > 0 {
      PortFieldCount(n - 1);
    }
  }

  /** Where `init` writes the j-th field of a port. */
  lemma BodyFieldAt(port: nat, j: nat)
    requires port < 5 && j < 7
    ensures |BodyFields()| == 46 && BodyFields()[5 + 7 * port + j] == PortFields(port)[j]
  {
    hide PortFields;
    PortFieldAt(5, port, j);
    assert BodyFields()[5 + 7 * port + j] == AllPortFields(5)[7 * port + j];
  }

  /** The fields written before and after the loop over the ports. */
  lemma OtherBodyFields(i: nat)
    ensures |BodyFields()| == 46
    ensures i < 5 ==> BodyFields()[i] == GlobalFields()[i]
    ensures i < 6 ==> BodyFields()[40 + i] == EnableFields()[i]
  {
    hide AllPortFields;
    PortFieldCount(5);
    var fs := GlobalFields() + AllPortFields(5);
    assert BodyFields() == fs + EnableFields();
  }

  lemma DefaultAt(mem: Memory, i: nat)
    requires AllDefaults(mem) && i < |BodyFields()|
    ensures Read(mem, BodyFields()[i]) == Default(BodyFields()[i])
  {
    hide BodyFields, Default, Read;
  }

  /** The enable flags, and the node controller's mode after them. */
  lemma EnableDefault(mem: Memory, i: nat)
    requires AllDefaults(mem) && i < 6
    ensures var f := EnableFields()[i]; ValidField(f) && Read(mem, f) == Default(f)
  {
    hide AllDefaults, BodyFields, Read, Default;
    OtherBodyFields(i);
    DefaultAt(mem, 40 + i);
  }

  lemma GlobalDefault(mem: Memory, i: nat)
    requires AllDefaults(mem) && i < 5
    ensures var f := GlobalFields()[i]; ValidField(f) && Read(mem, f) == Default(f)
  {
    hide AllDefaults, BodyFields, Read, Default;
    OtherBodyFields(i);
    DefaultAt(mem, i);
  }

  lemma PortDefault(mem: Memory, port: nat, j: nat)
    requires AllDefaults(mem) && port < 5 && j < 7
    ensures var f := PortFields(port)[j]; ValidField(f) && Read(mem, f) == Default(f)
  {
    hide AllDefaults, BodyFields, Read, Default;
    BodyFieldAt(port, j);
    DefaultAt(mem, 5 + 7 * port + j);
  }

  lemma DefaultsOfPort(mem: Memory, port: nat)
    requires AllDefaults(mem) && port < 5
    ensures NewPort(mem, port)
  {
    hide AllDefaults, BodyFields, Read;
    EnableDefault(mem, port);
    PortDefault(mem, port, 0);
    PortDefault(mem, port, 1);
    PortDefault(mem, port, 2);
    PortDefault(mem, port, 3);
    PortDefault(mem, port, 4);
    PortDefault(mem, port, 5);
    PortDefault(mem, port, 6);
  }

  /** What `init` writes makes up a new record. */
  lemma DefaultsMakeNewRecord(mem: Memory)
    requires AllDefaults(mem)
    ensures NewRecord(mem)
  {
    hide AllDefaults, BodyFields, Read, NewPort;
    GlobalDefault(mem, 0);
    GlobalDefault(mem, 1);
    GlobalDefault(mem, 2);
    GlobalDefault(mem, 3);
    GlobalDefault(mem, 4);
    EnableDefault(mem, 5);
    forall port | 0 <= port < 5
      ensures NewPort(mem, port)
    {
      DefaultsOfPort(mem, port);
    }
  }

  lemma {:induction false} BytesOfValue(bs: seq<Byte>)
    ensures ToBytes(FromBytes(bs), |bs|) == bs
  {
    if bs != [] {
      BytesOfValue(bs[1..]);
      assert FromBytes(bs) % 256 == bs[0] && FromBytes(bs) / 256 == FromBytes(bs[1..]);
    }
  }

  /** The bytes in which it can be recognised: the magic word, low byte first, both versions, the bus and the port
      flags. */
  lemma NewRecordBytes(mem: Memory)
    requires Initialized(mem) && NewRecord(mem)
    ensures mem[0..4] == [0xA1, 0xAD, 0xA1, 0xAD]
    ensures mem[4..8] == [3, 1, 1, 0]
    ensures mem[32] == 1
    ensures mem[256] == 1 && mem[384] == 1 && mem[512] == 1 && mem[640] == 0 && mem[768] == 0
  {
    BytesOfValue(mem[0..4]);
    assert ToBytes(0xADA1ADA1, 4) == [0xA1, 0xAD, 0xA1, 0xAD];
    hide Read;
    GlobalFormat(mem);
    assert mem[4..8] == [mem[4], mem[5], mem[6], mem[7]];
    forall port | 0 <= port < 5
      ensures mem[256 + 128 * port] == if port <= 2 then 1 else 0
    {
      assert NewPort(mem, port);
      PortFormat(mem, port, 0);
    }
    assert mem[256 + 128 * 0] == 1 && mem[256 + 128 * 1] == 1 && mem[256 + 128 * 2] == 1;
    assert mem[256 + 128 * 3] == 0 && mem[256 + 128 * 4] == 0;
  }

  lemma MagicUntouched(mem: Memory, ws: seq<Write>)
    requires InBounds(ws) && forall i :: 0 <= i < |ws| ==> ws[i].addr >= 4
    ensures Initialized(Replay(mem, ws)) == Initialized(mem)
  {
    var after := Replay(mem, ws);
    forall a | 0 <= a < 4
      ensures after[a] == mem[a]
    {
      ReplayFrame(mem, ws, a);
    }
    assert after[0..4] == mem[0..4];
  }

  /** Crash-safe initialisation: cut `init` after any number of byte writes; if the record then counts as
      initialised, it is a new record. */
  lemma InitCrashSafe(mem: Memory, k: nat)
    requires !Initialized(mem) && k <= |InitWrites()|
    ensures var after := Replay(mem, InitWrites()[..k]);
            Initialized(after) ==> AllDefaults(after) && NewRecord(after)
  {
    hide BodyFields, DefaultWrites, SetWrites, Read, Initialized, NewRecord;
    var body, magic := DefaultWrites(BodyFields()), SetWrites(Magic, MAGIC);
    DefaultWritesAvoidMagic(BodyFields());
    if k <= |body| {
      assert InitWrites()[..k] == body[..k];
      MagicUntouched(mem, body[..k]);
    } else {
      var j := k - |body|;
      assert InitWrites()[..k] == body + magic[..j];
      ReplayConcat(mem, body, magic[..j]);
      DefaultWritesSet(mem, BodyFields());
      MagicFrames(Replay(mem, body), j);
      DefaultsMakeNewRecord(Replay(mem, InitWrites()[..k]));
    }
  }

  lemma MagicFrames(mem: Memory, j: nat)
    requires j <= 4 && AllDefaults(mem)
    ensures InBounds(SetWrites(Magic, MAGIC)[..j]) && AllDefaults(Replay(mem, SetWrites(Magic, MAGIC)[..j]))
  {
    hide BodyFields, SetWrites, Read;
    var fs := BodyFields();
    forall i | 0 <= i < |fs|
      ensures Read(Replay(mem, SetWrites(Magic, MAGIC)[..j]), fs[i]) == Default(fs[i])
    {
      SetFrames(mem, Magic, MAGIC, j, fs[i]);
    }
  }

  lemma InitCompletes(mem: Memory)
    ensures var after := Replay(mem, InitWrites());
            Initialized(after) && AllDefaults(after) && NewRecord(after)
  {
    hide BodyFields, DefaultWrites, SetWrites, Read, NewRecord;
    var body := DefaultWrites(BodyFields());
    ReplayConcat(mem, body, SetWrites(Magic, MAGIC));
    DefaultWritesSet(mem, BodyFields());
    MagicFrames(Replay(mem, body), 4);
    assert SetWrites(Magic, MAGIC)[..4] == SetWrites(Magic, MAGIC);
    DefaultFits(Magic);
    SetThenRead(Replay(mem, body), Magic, MAGIC);
    DefaultsMakeNewRecord(Replay(mem, InitWrites()));
  }

  /** The byte writes of `setLastBootTime` and `incrementBootCount`. */
  function StampWrites(mem: Memory, time: Word): (ws: seq<Write>)
    ensures InBounds(ws) && |ws| == 8
  {
    SetWrites(LastBootTime, time) + SetWrites(BootCount, (Read(mem, BootCount) + 1) % WORD32)
  }

  /** The byte writes of the sketch's `setup`, up to the boot count. */
  function BootWrites(mem: Memory, time: Word): (ws: seq<Write>)
    ensures InBounds(ws)
  {
    if Initialized(mem) then StampWrites(mem, time)
    else InitWrites() + StampWrites(Replay(mem, InitWrites()), time)
  }

  predicate Stamp(f: Field) {
    f == LastBootTime || f == BootCount
  }

  /** Initialised, and every default in place apart from the two fields each boot changes. */
  predicate Ready(mem: Memory) {
    Initialized(mem) && forall i :: 0 <= i < |BodyFields()| ==>
      Stamp(BodyFields()[i]) || Read(mem, BodyFields()[i]) == Default(BodyFields()[i])
  }

  /** Part of a stamp leaves every other field alone. */
  lemma StampFrames(mem: Memory, time: Word, k: nat, f: Field)
    requires k <= 8 && ValidField(f) && !Stamp(f)
    ensures Read(Replay(mem, StampWrites(mem, time)[..k]), f) == Read(mem, f)
  {
    hide Read, SetWrites, Replay;
    var a, b := SetWrites(LastBootTime, time), SetWrites(BootCount, (Read(mem, BootCount) + 1) % WORD32);
    if k <= 4 {
      assert StampWrites(mem, time)[..k] == a[..k];
      SetFrames(mem, LastBootTime, time, k, f);
    } else {
      assert StampWrites(mem, time)[..k] == a + b[..k - 4] && a[..4] == a;
      SetFrames(mem, LastBootTime, time, 4, f);
      ReplayConcat(mem, a, b[..k - 4]);
      SetFrames(Replay(mem, a), BootCount, (Read(mem, BootCount) + 1) % WORD32, k - 4, f);
    }
  }

  lemma StampKeepsReady(mem: Memory, time: Word, k: nat)
    requires k <= 8 && Ready(mem)
    ensures Ready(Replay(mem, StampWrites(mem, time)[..k]))
  {
    hide Read, StampWrites, Replay, BodyFields;
    var after := Replay(mem, StampWrites(mem, time)[..k]);
    StampFrames(mem, time, k, Magic);
    forall i | 0 <= i < |BodyFields()| && !Stamp(BodyFields()[i])
      ensures Read(after, BodyFields()[i]) == Read(mem, BodyFields()[i])
    {
      StampFrames(mem, time, k, BodyFields()[i]);
    }
  }

  /** A whole stamp. */
  lemma StampStores(mem: Memory, time: Word)
    ensures var after := Replay(mem, StampWrites(mem, time));
            Read(after, LastBootTime) == time && Read(after, BootCount) == (Read(mem, BootCount) + 1) % WORD32
  {
    hide Read, SetWrites, Replay;
    var count := (Read(mem, BootCount) + 1) % WORD32;
    var a, b := SetWrites(LastBootTime, time), SetWrites(BootCount, count);
    assert b[..4] == b;
    ReplayConcat(mem, a, b);
    WordFits(time);
    WordFits(count);
    SetThenRead(mem, LastBootTime, time);
    SetFrames(Replay(mem, a), BootCount, count, 4, LastBootTime);
    SetThenRead(Replay(mem, a), BootCount, count);
  }

  lemma DefaultsAreReady(mem: Memory)
    requires Initialized(mem) && AllDefaults(mem)
    ensures Ready(mem)
  {
    hide BodyFields, Read, Default;
  }

  /** A boot cut after k byte writes. */
  function InterruptedBoot(mem: Memory, time: Word, k: nat): Memory {
    Replay(mem, if k <= |BootWrites(mem, time)| then BootWrites(mem, time)[..k] else BootWrites(mem, time))
  }

  predicate Pending(mem: Memory) {
    Initialized(mem) ==> Ready(mem)
  }

  lemma BootKeepsPending(mem: Memory, time: Word, k: nat)
    requires Pending(mem) && k <= |BootWrites(mem, time)|
    ensures Pending(Replay(mem, BootWrites(mem, time)[..k]))
    ensures k == |BootWrites(mem, time)| ==> Ready(Replay(mem, BootWrites(mem, time)[..k]))
  {
    hide Initialized, AllDefaults, InitWrites, StampWrites, Ready, Replay;
    if Initialized(mem) {
      StampKeepsReady(mem, time, k);
    } else if k <= |InitWrites()| {
      assert BootWrites(mem, time)[..k] == InitWrites()[..k];
      InitCrashSafe(mem, k);
      var after := Replay(mem, InitWrites()[..k]);
      if Initialized(after) {
        DefaultsAreReady(after);
      }
    } else {
      var m := Replay(mem, InitWrites());
      var stamp := StampWrites(m, time);
      var j := k - |InitWrites()|;
      assert BootWrites(mem, time)[..k] == InitWrites() + stamp[..j];
      ReplayConcat(mem, InitWrites(), stamp[..j]);
      InitCompletes(mem);
      DefaultsAreReady(m);
      StampKeepsReady(m, time, j);
    }
    ReadyIsInitialized(Replay(mem, BootWrites(mem, time)[..k]));
  }

  lemma ReadyIsInitialized(mem: Memory)
    ensures Ready(mem) ==> Initialized(mem)
  {
  }

  /** The record after a series of boots, each cut somewhere or not at all. */
  function InterruptedBoots(mem: Memory, boots: seq<(Word, nat)>): Memory
    decreases |boots|
  {
    if boots == [] then mem else InterruptedBoots(InterruptedBoot(mem, boots[0].0, boots[0].1), boots[1..])
  }

  lemma {:induction false} BootsKeepPending(mem: Memory, boots: seq<(Word, nat)>)
    requires Pending(mem)
    ensures Pending(InterruptedBoots(mem, boots))
    decreases |boots|
  {
    if boots != [] {
      hide Pending, BootWrites, Replay;
      var (time, k) := boots[0];
      var ws := BootWrites(mem, time);
      assert ws[..|ws|] == ws;
      BootKeepsPending(mem, time, if k <= |ws| then k else |ws|);
      BootsKeepPending(InterruptedBoot(mem, time, k), boots[1..]);
    }
  }

  /** However many boots went before and wherever each was cut, a boot that runs through leaves an initialised record
      with its own time, the boot count one up, from zero on a first boot, and every other default in place. */
  lemma BootsEndInitialized(mem: Memory, boots: seq<(Word, nat)>, time: Word)
    requires !Initialized(mem)
    ensures var m := InterruptedBoots(mem, boots);
            var last := Replay(m, BootWrites(m, time));
            && Ready(last) && Read(last, LastBootTime) == time
            && Read(last, BootCount) == if Initialized(m) then (Read(m, BootCount) + 1) % WORD32 else 1
  {
    hide Initialized, Pending, Ready, Replay, Read, StampWrites, InitWrites;
    MakesPending(mem);
    BootsKeepPending(mem, boots);
    var m := InterruptedBoots(mem, boots);
    var ws := BootWrites(m, time);
    assert ws[..|ws|] == ws;
    BootKeepsPending(m, time, |ws|);
    if Initialized(m) {
      StampStores(m, time);
    } else {
      FirstCount(m);
      ReplayConcat(m, InitWrites(), StampWrites(Replay(m, InitWrites()), time));
      StampStores(Replay(m, InitWrites()), time);
    }
  }

  lemma MakesPending(mem: Memory)
    requires !Initialized(mem)
    ensures Pending(mem)
  {
  }

  /** `init` leaves a boot count of zero. */
  lemma FirstCount(mem: Memory)
    ensures Read(Replay(mem, InitWrites()), BootCount) == 0
  {
    hide Read, Replay, InitWrites;
    InitCompletes(mem);
    assert BodyFields()[0] == BootCount;
  }

  /** After any nonempty byte prefix of `clearMagic` the record is not initialised. */
  lemma ClearMagicAtOnce(mem: Memory, k: nat)
    requires 1 <= k <= 4
    ensures !Initialized(Replay(mem, SetWrites(Magic, 0)[..k]))
  {
    hide Read, Replay, PutWrites, FourBytes;
    var bs := ToBytes(0, 4);
    ReplayPut(mem, 0, bs, k);
    var after := Replay(mem, SetWrites(Magic, 0)[..k]);
    assert bs[..k][0] == bs[0] == 0;
    FourByteField(after, Magic);
    LowByteZero(after);
  }

  lemma LowByteZero(mem: Memory)
    requires mem[0] == 0
    ensures FourBytes(mem, 0) != MAGIC
  {
    assert FourBytes(mem, 0) % 256 == 0;
  }

  // ----- boot logs

  /** The slot of the i-th entry; the start is reduced only here. */
  function Slot(start: nat, i: nat): (s: nat)
    ensures s < 8
  {
    (start + i) % 8
  }

  /** A ring of eight slots as a list, oldest first. */
  function Ring(start: nat, count: nat, slots: seq<nat>): (es: seq<nat>)
    requires |slots| == 8
    ensures |es| == count
    ensures forall i :: 0 <= i < count ==> es[i] == slots[Slot(start, i)]
  {
    seq(count, i requires 0 <= i => slots[Slot(start, i)])
  }

  /** Overwriting the slot after the last entry: invisible while there is room, and the oldest entry when full. */
  lemma RingOverwrite(start: nat, count: nat, slots: seq<nat>, x: nat)
    requires |slots| == 8 && count <= 8
    ensures Ring(start, count, slots[Slot(start, count) := x])
        == if count < 8 then Ring(start, count, slots) else Ring(start, count, slots)[0 := x]
  {
    hide Ring, Slot;
    var a, b := Ring(start, count, slots), Ring(start, count, slots[Slot(start, count) := x]);
    forall i | 0 <= i < count
      ensures b[i] == if count == 8 && i == 0 then x else a[i]
    {
      SlotsDiffer(start, i, count);
    }
  }

  /** Two positions at most eight apart share a slot only when exactly eight apart. */
  lemma SlotsDiffer(start: nat, i: nat, n: nat)
    requires i < n <= 8
    ensures Slot(start, i) == Slot(start, n) <==> n - i == 8
  {
    SlotOf(start, i);
    SlotOf(start, n);
    hide Slot;
  }

  lemma SlotOf(start: nat, i: nat)
    requires i <= 8
    ensures var s := start % 8 + i; Slot(start, i) == if s < 8 then s else s - 8
  {
    var q, s := start / 8, start % 8 + i;
    if s < 8 {
      Remainder(start + i, q, s);
    } else {
      Remainder(start + i, q + 1, s - 8);
    }
  }

  lemma Remainder(n: nat, q: nat, r: nat)
    requires n == 8 * q + r && r < 8
    ensures n % 8 == r
  {
  }

  /** Writing the slot and moving the header appends, even when the start byte wraps at 256. */
  lemma RingAppend(start: nat, count: nat, slots: seq<nat>, t: nat)
    requires |slots| == 8 && count <= 8 && start < 256
    ensures var after := slots[Slot(start, count) := t];
            Append<nat>(Ring(start, count, slots), t)
            == if count < 8 then Ring(start, count + 1, after) else Ring((start + 1) % 256, 8, after)
  {
    hide Ring, Slot;
    RingOverwrite(start, count, slots, t);
    var after := slots[Slot(start, count) := t];
    if count < 8 {
      RingGrows(start, count, after);
    } else {
      RingTurns(start, after);
      SlotsDiffer(start, 0, 8);
      var a, b := Ring(start, 8, slots), Ring(start, 8, after);
      assert b[1..] == a[1..];
    }
  }

  lemma RingGrows(start: nat, count: nat, slots: seq<nat>)
    requires |slots| == 8
    ensures Ring(start, count + 1, slots) == Ring(start, count, slots) + [slots[Slot(start, count)]]
  {
    hide Slot;
  }

  /** Moving the start of a full ring by one turns the list. */
  lemma RingTurns(start: nat, slots: seq<nat>)
    requires |slots| == 8 && start < 256
    ensures Ring((start + 1) % 256, 8, slots) == Ring(start, 8, slots)[1..] + [slots[Slot(start, 8)]]
  {
    var a, c := Ring(start, 8, slots), Ring((start + 1) % 256, 8, slots);
    hide Ring, Slot;
    forall i | 0 <= i < 8
      ensures c[i] == (a[1..] + [slots[Slot(start, 8)]])[i]
    {
      StartWraps(start, i);
    }
  }

  /** 256 is a multiple of the capacity. */
  lemma StartWraps(start: nat, i: nat)
    requires start < 256
    ensures Slot((start + 1) % 256, i) == Slot(start, i + 1)
  {
    if start == 255 {
      assert (256 + i) % 8 == i % 8;
    }
  }

  /** A log never holds more than its capacity. */
  predicate LogValid(mem: Memory, port: nat)
    requires port < 5
  {
    Read(mem, LogCount(port)) <= 8
  }

  function Slots(mem: Memory, port: nat): (slots: seq<nat>)
    requires port < 5
    ensures |slots| == 8
    ensures forall s :: 0 <= s < 8 ==> slots[s] == Read(mem, LogEntry(port, s))
  {
    seq(8, s requires 0 <= s < 8 => Read(mem, LogEntry(port, s)))
  }

  /** The log as a list, oldest first. */
  function Entries(mem: Memory, port: nat): seq<nat>
    requires port < 5
  {
    Ring(Read(mem, LogStart(port)), Read(mem, LogCount(port)), Slots(mem, port))
  }

  function NextSlot(mem: Memory, port: nat): nat
    requires port < 5
  {
    Slot(Read(mem, LogStart(port)), Read(mem, LogCount(port)))
  }

  function EntryWrites(mem: Memory, port: nat, t: Word): (ws: seq<Write>)
    requires port < 5
    ensures InBounds(ws) && |ws| == 4
  {
    SetWrites(LogEntry(port, NextSlot(mem, port)), t)
  }

  function HeaderWrites(mem: Memory, port: nat): (ws: seq<Write>)
    requires port < 5
    ensures InBounds(ws) && |ws| == 1
  {
    if Read(mem, LogCount(port)) == 8 then SetWrites(LogStart(port), (Read(mem, LogStart(port)) + 1) % 256)
    else SetWrites(LogCount(port), (Read(mem, LogCount(port)) + 1) % 256)
  }

  /** The byte writes of `addEntry`: four of the entry, then one of the header. */
  function AddWrites(mem: Memory, port: nat, t: Word): (ws: seq<Write>)
    requires port < 5
    ensures InBounds(ws) && |ws| == 5
  {
    EntryWrites(mem, port, t) + HeaderWrites(mem, port)
  }

  lemma WordFits(t: Word)
    ensures t < Range(4)
  {
    assert Range(1) == 256 && Range(2) == 65536 && Range(3) == 0x100_0000 && Range(4) == 0x1_0000_0000;
  }

  /** Part of an entry's bytes leaves the header alone and touches one slot only. */
  lemma EntryBytes(mem: Memory, port: nat, t: Word, k: nat)
    requires port < 5 && k <= 4
    ensures InBounds(EntryWrites(mem, port, t)[..k])
    ensures var after := Replay(mem, EntryWrites(mem, port, t)[..k]);
            && Read(after, LogStart(port)) == Read(mem, LogStart(port))
            && Read(after, LogCount(port)) == Read(mem, LogCount(port))
            && Slots(after, port) == Slots(mem, port)[NextSlot(mem, port) := Slots(after, port)[NextSlot(mem, port)]]
            && (k == 4 ==> Slots(after, port)[NextSlot(mem, port)] == t)
  {
    hide Read, SetWrites, Replay, Slot;
    var slot := NextSlot(mem, port);
    var f := LogEntry(port, slot);
    SetFrames(mem, f, t, k, LogStart(port));
    SetFrames(mem, f, t, k, LogCount(port));
    forall s | 0 <= s < 8 && s != slot
      ensures Read(Replay(mem, SetWrites(f, t)[..k]), LogEntry(port, s)) == Read(mem, LogEntry(port, s))
    {
      SetFrames(mem, f, t, k, LogEntry(port, s));
    }
    if k == 4 {
      assert SetWrites(f, t)[..4] == SetWrites(f, t);
      WordFits(t);
      SetThenRead(mem, f, t);
    }
  }

  /** Crash at any byte of the entry: a log with room reads exactly as before; a full log differs from before at most
      in its oldest entry, which is the new one once all four bytes are written. */
  lemma AddEntryCrash(mem: Memory, port: nat, t: Word, k: nat)
    requires port < 5 && LogValid(mem, port) && k <= 4
    ensures InBounds(AddWrites(mem, port, t)[..k])
    ensures var before, after := Entries(mem, port), Entries(Replay(mem, AddWrites(mem, port, t)[..k]), port);
            && (|before| < 8 ==> after == before)
            && (|before| == 8 ==> |after| == 8 && after[1..] == before[1..])
            && (|before| == 8 && k == 4 ==> after == before[0 := t])
  {
    hide Read, EntryWrites, HeaderWrites, Replay, Slot;
    EntryBytes(mem, port, t, k);
    assert AddWrites(mem, port, t)[..k] == EntryWrites(mem, port, t)[..k];
    var after := Replay(mem, EntryWrites(mem, port, t)[..k]);
    RingOverwrite(Read(mem, LogStart(port)), Read(mem, LogCount(port)), Slots(mem, port),
                  Slots(after, port)[NextSlot(mem, port)]);
  }

  lemma ByteField(mem: Memory, f: Field)
    requires ValidField(f) && Width(f) == 1
    ensures Read(mem, f) < 256
  {
    OneByte(mem, f);
  }

  /** The header byte moves the start of a full log, or the count of one with room, and nothing else. */
  lemma HeaderByte(m: Memory, port: nat)
    requires port < 5 && LogValid(m, port)
    ensures var after := Replay(m, HeaderWrites(m, port));
            var (start, count) := (Read(m, LogStart(port)), Read(m, LogCount(port)));
            && Slots(after, port) == Slots(m, port)
            && Read(after, LogStart(port)) == (if count == 8 then (start + 1) % 256 else start)
            && Read(after, LogCount(port)) == (if count == 8 then 8 else count + 1)
  {
    hide Read, SetWrites, Replay;
    var count, start := Read(m, LogCount(port)), Read(m, LogStart(port));
    var f, g := LogCount(port), LogStart(port);
    var v := count + 1;
    if count == 8 {
      f, g, v := LogStart(port), LogCount(port), (start + 1) % 256;
    }
    var ws := SetWrites(f, v);
    assert HeaderWrites(m, port) == ws && ws[..1] == ws;
    assert Range(1) == 256;
    SetThenRead(m, f, v);
    SetFrames(m, f, v, 1, g);
    forall s | 0 <= s < 8
      ensures Read(Replay(m, ws), LogEntry(port, s)) == Read(m, LogEntry(port, s))
    {
      SetFrames(m, f, v, 1, LogEntry(port, s));
    }
    assert Slots(Replay(m, ws), port) == Slots(m, port);
  }

  /** `addEntry` is its entry bytes and then its header byte, which depends only on the old header. */
  lemma EntryThenHeader(mem: Memory, port: nat, t: Word)
    requires port < 5
    ensures var m := Replay(mem, EntryWrites(mem, port, t));
            Replay(mem, AddWrites(mem, port, t)) == Replay(m, HeaderWrites(m, port))
  {
    hide Read, SetWrites, Replay, EntryWrites;
    EntryBytes(mem, port, t, 4);
    assert EntryWrites(mem, port, t)[..4] == EntryWrites(mem, port, t);
    ReplayConcat(mem, EntryWrites(mem, port, t), HeaderWrites(mem, port));
  }

  /** All four bytes of the entry. */
  lemma EntryStored(mem: Memory, port: nat, t: Word)
    requires port < 5
    ensures var m := Replay(mem, EntryWrites(mem, port, t));
            && Read(m, LogStart(port)) == Read(mem, LogStart(port))
            && Read(m, LogCount(port)) == Read(mem, LogCount(port))
            && Slots(m, port) == Slots(mem, port)[NextSlot(mem, port) := t]
  {
    hide Read, EntryWrites, Replay, Slot;
    EntryBytes(mem, port, t, 4);
    assert EntryWrites(mem, port, t)[..4] == EntryWrites(mem, port, t);
  }

  /** Header and slots of a log. */
  datatype LogState = LogState(start: nat, count: nat, slots: seq<nat>)

  predicate Full(l: LogState) {
    l.count == 8
  }

  function StateOf(mem: Memory, port: nat): (l: LogState)
    requires port < 5
    ensures |l.slots| == 8
  {
    LogState(Read(mem, LogStart(port)), Read(mem, LogCount(port)), Slots(mem, port))
  }

  function AddTo(l: LogState, t: nat): (k: LogState)
    requires |l.slots| == 8
    ensures |k.slots| == 8
  {
    var slots := l.slots[Slot(l.start, l.count) := t];
    if Full(l) then LogState((l.start + 1) % 256, 8, slots) else LogState(l.start, l.count + 1, slots)
  }

  /** `addEntry` on header and slots. */
  lemma AddEntryState(mem: Memory, port: nat, t: Word)
    requires port < 5 && LogValid(mem, port)
    ensures StateOf(Replay(mem, AddWrites(mem, port, t)), port) == AddTo(StateOf(mem, port), t)
  {
    hide Read, EntryWrites, HeaderWrites, AddWrites, Replay, Slot, Slots;
    EntryStored(mem, port, t);
    EntryThenHeader(mem, port, t);
    HeaderByte(Replay(mem, EntryWrites(mem, port, t)), port);
  }

  lemma AddToAppends(l: LogState, t: nat)
    requires |l.slots| == 8 && l.count <= 8 && l.start < 256
    ensures var k := AddTo(l, t);
            k.count <= 8 && Ring(k.start, k.count, k.slots) == Append<nat>(Ring(l.start, l.count, l.slots), t)
  {
    hide Ring, Slot, Append;
    RingAppend(l.start, l.count, l.slots, t);
    if Full(l) {
      assert AddTo(l, t) == LogState((l.start + 1) % 256, 8, l.slots[Slot(l.start, l.count) := t]);
    } else {
      assert AddTo(l, t) == LogState(l.start, l.count + 1, l.slots[Slot(l.start, l.count) := t]);
    }
  }

  lemma EntriesOf(mem: Memory, port: nat)
    requires port < 5
    ensures var l := StateOf(mem, port);
            && Entries(mem, port) == Ring(l.start, l.count, l.slots)
            && (LogValid(mem, port) <==> l.count <= 8)
            && l.start < 256
  {
    hide Read, Slots, Ring;
    ByteField(mem, LogStart(port));
  }

  /** `addEntry` appends to the list of the last eight entries. */
  lemma AddEntryAppends(mem: Memory, port: nat, t: Word)
    requires port < 5 && LogValid(mem, port)
    ensures var after := Replay(mem, AddWrites(mem, port, t));
            LogValid(after, port) && Entries(after, port) == Append<nat>(Entries(mem, port), t)
  {
    hide *;
    EntriesOf(mem, port);
    EntriesOf(Replay(mem, AddWrites(mem, port, t)), port);
    AddEntryState(mem, port, t);
    AddToAppends(StateOf(mem, port), t);
  }

  function AppendAll(log: seq<nat>, ts: seq<Word>): seq<nat>
    decreases |ts|
  {
    if ts == [] then log else Append<nat>(AppendAll(log, ts[..|ts| - 1]), ts[|ts| - 1])
  }

  /** Any number of appends to an empty log leave the last eight times, oldest first. */
  lemma {:induction false} LastEight(ts: seq<Word>)
    ensures AppendAll([], ts) == Latest<nat>(ts)
    decreases |ts|
  {
    if ts != [] {
      var n := |ts| - 1;
      LastEight(ts[..n]);
      hide Append, Latest;
      AppendLatest<nat>(ts[..n], ts[n]);
      assert ts == ts[..n] + [ts[n]];
    }
  }

  /** Memory after a sequence of `addEntry` calls on one log. */
  function AddAll(mem: Memory, port: nat, ts: seq<Word>): Memory
    requires port < 5
    decreases |ts|
  {
    if ts == [] then mem
    else
      var m := AddAll(mem, port, ts[..|ts| - 1]);
      Replay(m, AddWrites(m, port, ts[|ts| - 1]))
  }

  /** The boot log refines the list of the last eight times, for any number of `addEntry` calls. */
  lemma {:induction false} LogRefinesList(mem: Memory, port: nat, ts: seq<Word>)
    requires port < 5 && LogValid(mem, port)
    ensures LogValid(AddAll(mem, port, ts), port)
    ensures Entries(AddAll(mem, port, ts), port) == AppendAll(Entries(mem, port), ts)
    decreases |ts|
  {
    if ts != [] {
      hide Entries, LogValid, AddWrites;
      LogRefinesList(mem, port, ts[..|ts| - 1]);
      AddEntryAppends(AddAll(mem, port, ts[..|ts| - 1]), port, ts[|ts| - 1]);
    }
  }
}
