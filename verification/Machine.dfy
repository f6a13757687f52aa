/** Machine integers of the firmware, kept as mathematical integers with explicit ranges. */
module Machine {
  const WORD16 := 0x1_0000
  const WORD32 := 0x1_0000_0000

  type Byte = x: int | 0 <= x < 256
  type Short = x: int | 0 <= x < 0x1_0000
  type Word = x: int | 0 <= x < 0x1_0000_0000

  datatype Option<+T> = None | Some(value: T)

  /** Appending to a log that keeps its last eight entries. */
  function Append<T>(log: seq<T>, t: T): seq<T> {
    if |log| < 8 then log + [t] else log[1..] + [t]
  }

  /** The last eight elements, or all if there are fewer. */
  function Latest<T>(ts: seq<T>): seq<T> {
    if |ts| <= 8 then ts else ts[|ts| - 8..]
  }

  /** Appending to the last eight of a sequence gives the last eight of the longer one. */
  lemma AppendLatest<T>(ts: seq<T>, t: T)
    ensures Append(Latest(ts), t) == Latest(ts + [t])
  {
    if |ts| >= 8 {
      var k := |ts| - 8;
      var a, b := ts[k..], (ts + [t])[k + 1..];
      assert Latest(ts) == a && Latest(ts + [t]) == b;
      forall i | 0 <= i < 8
        ensures (a[1..] + [t])[i] == b[i]
      {
        if i < 7 {
          assert a[1..][i] == a[i + 1] == ts[k + i + 1];
        }
      }
    }
  }
}
