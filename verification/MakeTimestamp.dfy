/** Packed file timestamps of GNU make, with 64 bits (`file.c`, `filedef.h`). */
module MakeTimestamp {

  const WORD := 0x1_0000_0000_0000_0000
  const PER_SECOND := 1_000_000_000
  const UNIT := 0x4000_0000

  const OLD_MTIME := 2
  const ORDINARY_MTIME_MIN := OLD_MTIME + 1
  const NEW_MTIME := WORD - 1
  const ORDINARY_MTIME_MAX := (NEW_MTIME - ORDINARY_MTIME_MIN) / UNIT * UNIT + ORDINARY_MTIME_MIN + PER_SECOND - 1

  function Seconds(ts: nat): nat
    requires ts >= ORDINARY_MTIME_MIN
  {
    (ts - ORDINARY_MTIME_MIN) / UNIT
  }

  function Nanoseconds(ts: nat): nat
    requires ts >= ORDINARY_MTIME_MIN
  {
    (ts - ORDINARY_MTIME_MIN) % UNIT
  }

  predicate Clock(s: int, ns: nat) {
    -WORD / 2 <= s < WORD / 2 && ns < PER_SECOND
  }

  /** `file_timestamp_cons`, with unsigned arithmetic that wraps around. */
  function Cons(s: int, ns: nat): nat
    requires Clock(s, ns)
  {
    var u := s % WORD;
    var product := u * UNIT % WORD;
    var ts := (product + ORDINARY_MTIME_MIN + ns) % WORD;
    if u <= Seconds(ORDINARY_MTIME_MAX) && product <= ts <= ORDINARY_MTIME_MAX then ts
    else if s <= OLD_MTIME then ORDINARY_MTIME_MIN
    else ORDINARY_MTIME_MAX
  }

  /** Times before the epoch and beyond the range get the first and the last timestamp. */
  lemma ConsIs(s: int, ns: nat)
    requires Clock(s, ns)
    ensures Cons(s, ns) == if s < 0 then ORDINARY_MTIME_MIN
                           else if s < 0x4_0000_0000 then s * UNIT + ORDINARY_MTIME_MIN + ns
                           else ORDINARY_MTIME_MAX
  {
    assert ORDINARY_MTIME_MAX == 0x3_FFFF_FFFF * UNIT + ORDINARY_MTIME_MIN + PER_SECOND - 1;
    assert Seconds(ORDINARY_MTIME_MAX) == 0x3_FFFF_FFFF;
    if s < 0 {
      assert s % WORD == s + WORD;
    }
  }

  /** The parts of a time in range can be read off its timestamp. */
  lemma PartsRestored(s: int, ns: nat)
    requires Clock(s, ns) && 0 <= s < 0x4_0000_0000
    ensures var ts := Cons(s, ns); ts >= ORDINARY_MTIME_MIN && Seconds(ts) == s && Nanoseconds(ts) == ns
  {
    ConsIs(s, ns);
  }

  /** A timestamp is never one of the special values, and a later time never has an earlier timestamp. */
  lemma OrderKept(s: int, ns: nat, s2: int, ns2: nat)
    requires Clock(s, ns) && Clock(s2, ns2) && (s < s2 || (s == s2 && ns < ns2))
    ensures OLD_MTIME < Cons(s, ns) <= Cons(s2, ns2) < NEW_MTIME
    ensures Cons(s, ns) < Cons(s2, ns2) <==> 0 <= s2 && s < 0x4_0000_0000 && !(s < 0 && s2 == 0 && ns2 == 0)
                                             && !(s == 0x3_FFFF_FFFF && ns == PER_SECOND - 1)
  {
    ConsIs(s, ns);
    ConsIs(s2, ns2);
  }
}
