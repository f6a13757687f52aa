/** The EEPROM object and the functions of `Record` as imperative code: every byte write goes through `WriteByte`, which
    the ghost field `writes` remembers, so that each operation is proved to make exactly the writes that module
    `Storage` reasons about. */
module RecordStore {
  import opened Machine
  import opened Storage

  class Eeprom {
    const data: array<Byte>
    ghost var writes: seq<Write>

    ghost predicate Valid()
      reads this
    {
      data.Length == SIZE
    }

    ghost function Mem(): Memory
      requires Valid()
      reads this, data
    {
      data[..]
    }

    /** `MockEEPROM::clear` gives a blank store. */
    constructor ()
      ensures Valid() && fresh(data) && writes == []
      ensures forall i :: 0 <= i < SIZE ==> data[i] == 0
    {
      data := new Byte[SIZE](_ => 0);
      writes := [];
    }

    method WriteByte(addr: nat, value: Byte)
      requires Valid() && addr < SIZE
      modifies data, this`writes
      ensures Mem() == old(Mem())[addr := value]
      ensures writes == old(writes) + [Write(addr, value)]
    {
      data[addr] := value;
      writes := writes + [Write(addr, value)];
    }

    /** `put`, one byte at a time. */
    method Put(addr: nat, bytes: seq<Byte>)
      requires Valid() && addr + |bytes| <= SIZE
      modifies data, this`writes
      ensures InBounds(PutWrites(addr, bytes)) && Mem() == Replay(old(Mem()), PutWrites(addr, bytes))
      ensures writes == old(writes) + PutWrites(addr, bytes)
    {
      ghost var before := Mem();
      var i := 0;
      while i < |bytes|
        invariant 0 <= i <= |bytes|
        invariant InBounds(PutWrites(addr, bytes)[..i]) && Mem() == Replay(before, PutWrites(addr, bytes)[..i])
        invariant writes == old(writes) + PutWrites(addr, bytes)[..i]
      {
        WriteByte(addr + i, bytes[i]);
        ghost var ws := PutWrites(addr, bytes);
        assert ws[..i + 1] == ws[..i] + [ws[i]];
        assert ws[..i + 1][..i] == ws[..i];
        i := i + 1;
      }
      assert PutWrites(addr, bytes)[..i] == PutWrites(addr, bytes);
    }

    /** `get`, one byte at a time. */
    method Get(addr: nat, width: nat) returns (bytes: seq<Byte>)
      requires Valid() && addr + width <= SIZE
      ensures bytes == Mem()[addr..addr + width]
    {
      bytes := [];
      var i := 0;
      while i < width
        invariant 0 <= i <= width
        invariant bytes == Mem()[addr..addr + i]
      {
        bytes := bytes + [data[addr + i]];
        i := i + 1;
      }
    }

    // ----- Record

    /** Every setter of `Record` puts one field. */
    method SetField(f: Field, v: nat)
      requires Valid() && ValidField(f)
      modifies data, this`writes
      ensures Mem() == Replay(old(Mem()), SetWrites(f, v))
      ensures writes == old(writes) + SetWrites(f, v)
    {
      Put(Addr(f), ToBytes(v, Width(f)));
    }

    /** Every getter of `Record` gets one field. */
    method GetField(f: Field) returns (v: nat)
      requires Valid() && ValidField(f)
      ensures v == Read(Mem(), f)
    {
      var bytes := Get(Addr(f), Width(f));
      v := FromBytes(bytes);
    }

    /** `incrementBootAttempts`, `incrementBootFailures` and `incrementBootCount`, with the 32-bit wrap. */
    method Increment(f: Field)
      requires Valid() && ValidField(f) && Width(f) == 4
      modifies data, this`writes
      ensures Read(Mem(), f) == (Read(old(Mem()), f) + 1) % WORD32
      ensures forall g :: ValidField(g) && g != f ==> Read(Mem(), g) == Read(old(Mem()), g)
    {
      hide Storage.Read, Offset, Addr, SetWrites;
      var v := GetField(f);
      ghost var before := Mem();
      SetField(f, (v + 1) % WORD32);
      WordFits((v + 1) % WORD32);
      SetThenRead(before, f, (v + 1) % WORD32);
      OthersKept(before, f, (v + 1) % WORD32);
    }

    /** `getDeviceEnabled`. */
    method GetDeviceEnabled(device: Byte) returns (b: bool)
      requires Valid()
      ensures b == (device == 0 || (device < 5 && Read(Mem(), Enabled(device)) != 0))
    {
      if device >= 5 {
        return false;
      }
      if device == 0 {
        return true;
      }
      var v := GetField(Enabled(device));
      b := v != 0;
    }

    /** `setBootloaderNodeController`: an unknown mode becomes 1, the safe one. */
    method SetBootloaderNodeController(mode: Byte)
      requires Valid()
      modifies data, this`writes
      ensures Read(Mem(), BootloaderNodeController) == if mode > 2 then 1 else mode
      ensures forall g :: ValidField(g) && g != BootloaderNodeController ==> Read(Mem(), g) == old(Read(Mem(), g))
    {
      hide Storage.Read, Offset, Addr, SetWrites;
      var m := if mode > 2 then 1 else mode;
      ghost var before := Mem();
      SetField(BootloaderNodeController, m);
      assert Range(1) == 256;
      SetThenRead(before, BootloaderNodeController, m);
      OthersKept(before, BootloaderNodeController, m);
    }

    method IsInitialized() returns (b: bool)
      requires Valid()
      ensures b == Initialized(Mem())
    {
      var magic := GetField(Magic);
      b := magic == MAGIC;
    }

    method ClearMagic()
      requires Valid()
      modifies data, this`writes
      ensures writes == old(writes) + SetWrites(Magic, 0)
      ensures Mem() == Replay(old(Mem()), SetWrites(Magic, 0)) && !Initialized(Mem())
    {
      ghost var before := Mem();
      SetField(Magic, 0);
      ClearMagicAtOnce(before, 4);
      assert SetWrites(Magic, 0)[..4] == SetWrites(Magic, 0);
    }

    /** Puts the default of each listed field in turn. */
    method PutDefaults(fs: seq<Field>)
      requires Valid() && ValidFields(fs)
      modifies data, this`writes
      ensures Mem() == Replay(old(Mem()), DefaultWrites(fs))
      ensures writes == old(writes) + DefaultWrites(fs)
    {
      hide SetWrites, Replay;
      ghost var before := Mem();
      NoWrites(before);
      var i := 0;
      while i < |fs|
        invariant 0 <= i <= |fs|
        invariant Mem() == Replay(before, DefaultWrites(fs[..i]))
        invariant writes == old(writes) + DefaultWrites(fs[..i])
      {
        SetField(fs[i], Default(fs[i]));
        assert fs[..i + 1][..i] == fs[..i];
        ReplayConcat(before, DefaultWrites(fs[..i]), SetWrites(fs[i], Default(fs[i])));
        i := i + 1;
      }
      assert fs[..i] == fs;
    }

    /** `Record::init`: the magic word comes last. */
    method Init()
      requires Valid()
      modifies data, this`writes
      ensures writes == old(writes) + InitWrites()
      ensures Mem() == Replay(old(Mem()), InitWrites())
      ensures Initialized(Mem()) && NewRecord(Mem())
    {
      hide SetWrites, Replay, DefaultWrites, BodyFields, AllDefaults, Initialized, NewRecord;
      ghost var before := Mem();
      InitBody();
      SetField(Magic, MAGIC);
      ReplayConcat(before, DefaultWrites(BodyFields()), SetWrites(Magic, MAGIC));
      InitCompletes(before);
    }

    /** Globals, the five ports, then the enable flags. */
    method InitBody()
      requires Valid()
      modifies data, this`writes
      ensures writes == old(writes) + DefaultWrites(BodyFields())
      ensures Mem() == Replay(old(Mem()), DefaultWrites(BodyFields()))
    {
      hide SetWrites, Replay, DefaultWrites, GlobalFields, AllPortFields, EnableFields, ValidField, InBounds;
      InitGlobalsAndPorts();
      ghost var fs := GlobalFields() + AllPortFields(5);
      FixedFieldsValid();
      PutDefaults(EnableFields());
      DefaultWritesConcat(fs, EnableFields());
      ReplayConcat(old(Mem()), DefaultWrites(fs), DefaultWrites(EnableFields()));
      Reassociate(old(writes), DefaultWrites(fs), DefaultWrites(EnableFields()));
    }

    method InitGlobalsAndPorts()
      requires Valid()
      modifies data, this`writes
      ensures ValidFields(GlobalFields() + AllPortFields(5))
      ensures writes == old(writes) + DefaultWrites(GlobalFields() + AllPortFields(5))
      ensures Mem() == Replay(old(Mem()), DefaultWrites(GlobalFields() + AllPortFields(5)))
    {
      hide SetWrites, Replay, DefaultWrites, GlobalFields, AllPortFields, EnableFields, ValidField, InBounds;
      FixedFieldsValid();
      PutDefaults(GlobalFields());
      InitPorts();
      DefaultWritesConcat(GlobalFields(), AllPortFields(5));
      ReplayConcat(old(Mem()), DefaultWrites(GlobalFields()), DefaultWrites(AllPortFields(5)));
      Reassociate(old(writes), DefaultWrites(GlobalFields()), DefaultWrites(AllPortFields(5)));
    }

    /** The loop of `init` over the devices. */
    method InitPorts()
      requires Valid()
      modifies data, this`writes
      ensures ValidFields(AllPortFields(5))
      ensures Mem() == Replay(old(Mem()), DefaultWrites(AllPortFields(5)))
      ensures writes == old(writes) + DefaultWrites(AllPortFields(5))
    {
      hide SetWrites, Replay, DefaultWrites, PortFields;
      ghost var before := Mem();
      NoWrites(before);
      AllPortFieldsValid(0);
      var i: Byte := 0;
      while i < 5
        invariant 0 <= i <= 5 && ValidFields(AllPortFields(i))
        invariant Mem() == Replay(before, DefaultWrites(AllPortFields(i)))
        invariant writes == old(writes) + DefaultWrites(AllPortFields(i))
      {
        PortFieldsValid(i);
        PutDefaults(PortFields(i));
        DefaultWritesConcat(AllPortFields(i), PortFields(i));
        ReplayConcat(before, DefaultWrites(AllPortFields(i)), DefaultWrites(PortFields(i)));
        i := i + 1;
      }
    }

    /** What `setup` does with the record: `init` if needed, then the boot time and the boot count. */
    method Setup(time: Word)
      requires Valid()
      modifies data, this`writes
      ensures writes == old(writes) + BootWrites(old(Mem()), time)
      ensures Mem() == Replay(old(Mem()), BootWrites(old(Mem()), time))
    {
      hide InitWrites, StampWrites, Replay, Initialized, AllDefaults;
      var ready := IsInitialized();
      if !ready {
        Init();
      }
      ghost var m := Mem();
      StampBoot(time);
      if !ready {
        ReplayConcat(old(Mem()), InitWrites(), StampWrites(m, time));
        Reassociate(old(writes), InitWrites(), StampWrites(m, time));
      }
    }

    /** `setLastBootTime`, then `incrementBootCount`. */
    method StampBoot(time: Word)
      requires Valid()
      modifies data, this`writes
      ensures writes == old(writes) + StampWrites(old(Mem()), time)
      ensures Mem() == Replay(old(Mem()), StampWrites(old(Mem()), time))
    {
      hide SetWrites, Replay, Storage.Read;
      ghost var before := Mem();
      SetField(LastBootTime, time);
      OthersKept(before, LastBootTime, time);
      var count := GetField(BootCount);
      SetField(BootCount, (count + 1) % WORD32);
      ReplayConcat(before, SetWrites(LastBootTime, time), SetWrites(BootCount, (count + 1) % WORD32));
      Reassociate(old(writes), SetWrites(LastBootTime, time), SetWrites(BootCount, (count + 1) % WORD32));
    }

    // ----- BootLog

    method InitLog(port: nat)
      requires Valid() && port < 5
      modifies data, this`writes
      ensures LogValid(Mem(), port) && Entries(Mem(), port) == []
      ensures forall g :: ValidField(g) && g != LogStart(port) && g != LogCount(port) ==>
          Read(Mem(), g) == old(Read(Mem(), g))
    {
      hide Storage.Read, Offset, Addr, SetWrites, Slot;
      ghost var first := Mem();
      SetField(LogStart(port), 0);
      ghost var before := Mem();
      SetField(LogCount(port), 0);
      assert Range(1) == 256;
      SetThenRead(before, LogCount(port), 0);
      OthersKept(first, LogStart(port), 0);
      OthersKept(before, LogCount(port), 0);
    }

    /** `BootLog::addEntry`. */
    method AddEntry(port: nat, time: Word)
      requires Valid() && port < 5 && LogValid(Mem(), port)
      modifies data, this`writes
      ensures writes == old(writes) + AddWrites(old(Mem()), port, time)
      ensures Mem() == Replay(old(Mem()), AddWrites(old(Mem()), port, time))
      ensures LogValid(Mem(), port) && Entries(Mem(), port) == Append<nat>(old(Entries(Mem(), port)), time)
    {
      hide SetWrites, Replay, Storage.Read, Entries;
      ghost var before := Mem();
      var start := GetField(LogStart(port));
      var count := GetField(LogCount(port));
      var index := (start + count) % 8;
      SetField(LogEntry(port, index), time);
      if count == 8 {
        SetField(LogStart(port), (start + 1) % 256);
      } else {
        SetField(LogCount(port), (count + 1) % 256);
      }
      ReplayConcat(before, EntryWrites(before, port, time), HeaderWrites(before, port));
      AddEntryAppends(before, port, time);
    }

    /** `BootLog::getEntry`: 0 beyond the end. */
    method GetEntry(port: nat, i: Byte) returns (time: nat)
      requires Valid() && port < 5
      ensures time == if i < |Entries(Mem(), port)| then Entries(Mem(), port)[i] else 0
    {
      hide Storage.Read;
      var start := GetField(LogStart(port));
      var count := GetField(LogCount(port));
      if i >= count {
        return 0;
      }
      time := GetField(LogEntry(port, (start + i) % 8));
    }
  }

  lemma OthersKept(mem: Memory, f: Field, v: nat)
    requires ValidField(f)
    ensures forall g :: ValidField(g) && g != f ==> Read(Replay(mem, SetWrites(f, v)), g) == Read(mem, g)
  {
    hide Read, Offset, Addr, Width, SetWrites, Replay, ValidField;
    assert SetWrites(f, v)[..Width(f)] == SetWrites(f, v);
    forall g | ValidField(g) && g != f
      ensures Read(Replay(mem, SetWrites(f, v)), g) == Read(mem, g)
    {
      SetFrames(mem, f, v, Width(f), g);
    }
  }

  lemma NoWrites(mem: Memory)
    ensures Replay(mem, []) == mem && DefaultWrites([]) == [] && AllPortFields(0) == []
  {
  }

  lemma FixedFieldsValid()
    ensures ValidFields(GlobalFields()) && ValidFields(EnableFields())
  {
  }

  lemma PortFieldsValid(port: nat)
    requires port < 5
    ensures ValidFields(PortFields(port)) && AllPortFields(port + 1) == AllPortFields(port) + PortFields(port)
  {
  }

  /** From a blank store: initialise, log any boot times, and read back the last eight, oldest first. */
  method LogAndReadBack(port: nat, times: seq<Word>) returns (entries: seq<nat>)
    requires port < 5
    ensures entries == Latest<nat>(times)
  {
    hide Entries, LogValid, AddWrites, Replay, AppendAll, Latest;
    var e := new Eeprom();
    e.InitLog(port);
    LogAll(e, port, times);
    LastEight(times);
    entries := ReadAll(e, port);
  }

  method LogAll(e: Eeprom, port: nat, times: seq<Word>)
    requires e.Valid() && port < 5 && LogValid(e.Mem(), port)
    modifies e.data, e`writes
    ensures LogValid(e.Mem(), port) && Entries(e.Mem(), port) == AppendAll(old(Entries(e.Mem(), port)), times)
  {
    hide Entries, LogValid, AddWrites, Replay;
    for n := 0 to |times|
      invariant LogValid(e.Mem(), port)
      invariant Entries(e.Mem(), port) == AppendAll(old(Entries(e.Mem(), port)), times[..n])
    {
      e.AddEntry(port, times[n]);
      assert times[..n + 1][..n] == times[..n];
    }
    assert times[..|times|] == times;
  }

  method ReadAll(e: Eeprom, port: nat) returns (entries: seq<nat>)
    requires e.Valid() && port < 5 && LogValid(e.Mem(), port)
    ensures entries == Entries(e.Mem(), port)
  {
    hide Entries;
    EntriesCount(e.Mem(), port);
    entries := [];
    var count := e.GetField(LogCount(port));
    for i := 0 to count
      invariant entries == Entries(e.Mem(), port)[..i]
    {
      var t := e.GetEntry(port, i);
      entries := entries + [t];
    }
  }

  lemma EntriesCount(mem: Memory, port: nat)
    requires port < 5
    ensures |Entries(mem, port)| == Read(mem, LogCount(port))
  {
  }
}
