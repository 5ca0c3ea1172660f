/** Reading the notes of an ELF section (`parse_elfnote.py`). */
module ElfNote {
  import opened Wrappers

  type Byte = x: int | 0 <= x < 256

  const LIMIT := 0x1_0000_0000

  // -------------------------------------------------------------------------
  // Numbers
  // -------------------------------------------------------------------------

  function Decode32(b: seq<Byte>): (n: nat)
    requires |b| == 4
    ensures n < LIMIT
  {
    (b[0] as int) + 256 * (b[1] as int) + 65536 * (b[2] as int) + 16777216 * (b[3] as int)
  }

  function Encode32(n: nat): (b: seq<Byte>)
    requires n < LIMIT
    ensures |b| == 4 && Decode32(b) == n
  {
    var q1 := n / 256;
    var q2 := q1 / 256;
    [n % 256, q1 % 256, q2 % 256, q2 / 256]
  }

  lemma Encode32Inverse(b: seq<Byte>)
    requires |b| == 4
    ensures Encode32(Decode32(b)) == b
  {
    var n, b0, b1, b2, b3 := Decode32(b), b[0] as int, b[1] as int, b[2] as int, b[3] as int;
    assert n % 256 == b0 && n / 256 == b1 + 256 * b2 + 65536 * b3;
    assert n / 256 % 256 == b1 && n / 256 / 256 == b2 + 256 * b3;
  }

  /** The first byte is the lowest, the last the highest. */
  lemma LittleEndian(b: seq<Byte>)
    requires |b| == 4
    ensures var n := Decode32(b);
            n % 256 == b[0] && n / 256 % 256 == b[1] && n / 65536 % 256 == b[2] && n / 16777216 == b[3]
  {
    var n, b0, b1, b2, b3 := Decode32(b), b[0] as int, b[1] as int, b[2] as int, b[3] as int;
    assert n / 256 == b1 + 256 * b2 + 65536 * b3;
    assert n / 65536 == b2 + 256 * b3;
  }

  /** `round_up_to_nearest`: the least multiple of `step` that is not below `val`. */
  function RoundUp(val: nat, step: nat): (r: nat)
    requires step > 0
    ensures r % step == 0 && val <= r < val + step
  {
    var q := (val + (step - 1)) / step;
    MultipleOf(q, step);
    q * step
  }

  lemma MultipleOf(q: nat, step: nat)
    requires step > 0
    ensures (q * step) % step == 0
  {
    var n := q * step;
    var k, r := n / step, n % step;
    assert step * k + r == n;
    assert step * (q - k) == step * q - step * k;
    NoneBetween(step, q - k, r);
  }

  lemma NoneBetween(step: nat, d: int, r: nat)
    requires r < step && step * d == r
    ensures r == 0
  {
    assert step * d == step + step * (d - 1);
    assert d >= 1 ==> step * (d - 1) >= 0;
    assert d <= 0 ==> step * d <= 0;
  }

  // -------------------------------------------------------------------------
  // Notes as they stand in a section
  // -------------------------------------------------------------------------

  datatype Note = Note(name: seq<Byte>, kind: nat, desc: seq<Byte>)

  /** A note with everything that stands in the section: the name with its NUL, if any, and the padding. */
  datatype RawNote = RawNote(name: seq<Byte>, namePad: seq<Byte>, kind: nat, desc: seq<Byte>, descPad: seq<Byte>)

  predicate ValidRaw(n: RawNote) {
    && |n.name| < LIMIT && |n.desc| < LIMIT && n.kind < LIMIT
    && |n.name| + |n.namePad| == RoundUp(|n.name|, 4)
    && |n.desc| + |n.descPad| == RoundUp(|n.desc|, 4)
  }

  function Header(n: RawNote): (b: seq<Byte>)
    requires ValidRaw(n)
    ensures |b| == 12
  {
    Encode32(|n.name|) + Encode32(|n.desc|) + Encode32(n.kind)
  }

  function Body(n: RawNote): seq<Byte> {
    n.name + n.namePad + n.desc + n.descPad
  }

  predicate AllValid(ns: seq<RawNote>) {
    forall i :: 0 <= i < |ns| ==> ValidRaw(ns[i])
  }

  function Serialize(ns: seq<RawNote>): seq<Byte>
    requires AllValid(ns)
  {
    if ns == [] then [] else Header(ns[0]) + Body(ns[0]) + Serialize(ns[1..])
  }

  /** The note for the reader: without padding and the NUL at the end of its name. */
  function Stripped(n: RawNote): Note {
    Note(if |n.name| > 0 && n.name[|n.name| - 1] == 0 then n.name[..|n.name| - 1] else n.name, n.kind, n.desc)
  }

  function AllStripped(ns: seq<RawNote>): (r: seq<Note>)
    ensures |r| == |ns|
  {
    seq(|ns|, i requires 0 <= i < |ns| => Stripped(ns[i]))
  }

  // -------------------------------------------------------------------------
  // What can be read
  // -------------------------------------------------------------------------

  datatype End = Complete | TruncatedHeader | TruncatedBody

  /** The size of the body that a header announces. */
  function BodySize(b: seq<Byte>): nat
    requires |b| >= 12
  {
    RoundUp(Decode32(b[0..4]), 4) + RoundUp(Decode32(b[4..8]), 4)
  }

  /** Whether nothing more can be read from `rest`, and why. */
  predicate Stuck(rest: seq<Byte>, end: End) {
    match end
    case Complete => rest == []
    case TruncatedHeader => 0 < |rest| < 12
    case TruncatedBody => |rest| >= 12 && |rest| - 12 < BodySize(rest)
  }

  /** The section consists of these notes, and of a rest from which none can be read. */
  ghost predicate Reads(data: seq<Byte>, notes: seq<Note>, end: End) {
    exists raws, rest :: ReadsRaw(data, raws, rest, end) && notes == AllStripped(raws)
  }

  ghost predicate ReadsRaw(data: seq<Byte>, raws: seq<RawNote>, rest: seq<Byte>, end: End) {
    AllValid(raws) && data == Serialize(raws) + rest && Stuck(rest, end)
  }

  /** The first note is where its header says. */
  lemma FirstNote(n: RawNote, tail: seq<Byte>)
    requires ValidRaw(n)
    ensures var b := Header(n) + Body(n) + tail;
            && |b| >= 12 && Decode32(b[0..4]) == |n.name| && Decode32(b[4..8]) == |n.desc| && Decode32(b[8..12]) == n.kind
            && |Body(n)| == BodySize(b) && b[12..12 + BodySize(b)] == Body(n) && b[12 + BodySize(b)..] == tail
  {
    var b := Header(n) + Body(n) + tail;
    assert b[0..4] == Encode32(|n.name|) && b[4..8] == Encode32(|n.desc|) && b[8..12] == Encode32(n.kind);
    assert b == Header(n) + (Body(n) + tail);
  }

  /** Two notes whose bytes start a text are the same. */
  lemma SameNote(m: RawNote, n: RawNote, s: seq<Byte>, t: seq<Byte>)
    requires ValidRaw(m) && ValidRaw(n) && Header(m) + Body(m) + s == Header(n) + Body(n) + t
    ensures m == n && s == t
  {
    hide Header, Body, Decode32;
    FirstNote(m, s);
    FirstNote(n, t);
    SameBody(m, n);
  }

  lemma SameBody(m: RawNote, n: RawNote)
    requires ValidRaw(m) && ValidRaw(n) && Body(m) == Body(n)
    requires |m.name| == |n.name| && |m.desc| == |n.desc| && m.kind == n.kind
    ensures m == n
  {
    var a, k := |m.name|, RoundUp(|m.name|, 4);
    var d := k + |m.desc|;
    assert m.name == Body(m)[..a] && m.namePad == Body(m)[a..k] && m.desc == Body(m)[k..d] && m.descPad == Body(m)[d..];
    assert n.name == Body(n)[..a] && n.namePad == Body(n)[a..k] && n.desc == Body(n)[k..d] && n.descPad == Body(n)[d..];
  }

  lemma NotStuck(n: RawNote, tail: seq<Byte>, end: End)
    requires ValidRaw(n)
    ensures !Stuck(Header(n) + Body(n) + tail, end)
  {
    hide Body, Decode32, BodySize;
    FirstNote(n, tail);
  }

  /** What is read from a section, and why reading stops, is determined by its bytes. */
  lemma {:induction false} OnlyOneReading(raws: seq<RawNote>, rest: seq<Byte>, end: End, raws2: seq<RawNote>, rest2: seq<Byte>, end2: End)
    requires AllValid(raws) && AllValid(raws2) && Stuck(rest, end) && Stuck(rest2, end2)
    requires Serialize(raws) + rest == Serialize(raws2) + rest2
    ensures raws == raws2 && rest == rest2 && end == end2
    decreases |raws|
  {
    hide Header, Body, Decode32, BodySize;
    if raws != [] { Unfold(raws, rest); }
    if raws2 != [] { Unfold(raws2, rest2); }
    if raws == [] {
      assert Serialize(raws) + rest == rest;
      if raws2 != [] {
        NotStuck(raws2[0], Serialize(raws2[1..]) + rest2, end);
      } else {
        assert Serialize(raws2) + rest2 == rest2;
      }
    } else if raws2 == [] {
      assert Serialize(raws2) + rest2 == rest2;
      NotStuck(raws[0], Serialize(raws[1..]) + rest, end2);
    } else {
      SameNote(raws[0], raws2[0], Serialize(raws[1..]) + rest, Serialize(raws2[1..]) + rest2);
      OnlyOneReading(raws[1..], rest, end, raws2[1..], rest2, end2);
      assert raws == [raws[0]] + raws[1..] && raws2 == [raws2[0]] + raws2[1..];
    }
  }

  lemma Unfold(raws: seq<RawNote>, rest: seq<Byte>)
    requires AllValid(raws) && raws != []
    ensures AllValid(raws[1..]) && Serialize(raws) + rest == Header(raws[0]) + Body(raws[0]) + (Serialize(raws[1..]) + rest)
  {
  }

  lemma ReadingUnique(data: seq<Byte>, notes: seq<Note>, end: End, notes2: seq<Note>, end2: End)
    requires Reads(data, notes, end) && Reads(data, notes2, end2)
    ensures notes == notes2 && end == end2
  {
    var raws, rest :| ReadsRaw(data, raws, rest, end) && notes == AllStripped(raws);
    var raws2, rest2 :| ReadsRaw(data, raws2, rest2, end2) && notes2 == AllStripped(raws2);
    OnlyOneReading(raws, rest, end, raws2, rest2, end2);
  }

  // -------------------------------------------------------------------------
  // The reader
  // -------------------------------------------------------------------------


  class StructParser {
    const buf: seq<Byte>
    var pos: nat

    ghost predicate Valid()
      reads this
    {
      pos <= |buf|
    }

    constructor (buf: seq<Byte>)
      ensures this.buf == buf && pos == 0 && Valid()
    {
      this.buf := buf;
      pos := 0;
    }

    function Remaining(): nat
      requires Valid()
      reads this
    {
      |buf| - pos
    }

    /** `read_struct`: the next bytes, unless there are too few. */
    method ReadStruct(size: nat) returns (r: Option<seq<Byte>>)
      requires Valid()
      modifies this
      ensures Valid() && (r.None? <==> old(Remaining()) < size)
      ensures r.None? ==> pos == old(pos)
      ensures r.Some? ==> pos == old(pos) + size && r.value == buf[old(pos)..pos]
    {
      if Remaining() < size {
        return None;
      }
      r := Some(buf[pos..pos + size]);
      pos := pos + size;
    }
  }

  lemma {:induction false} SerializeOneMore(raws: seq<RawNote>, n: RawNote)
    requires AllValid(raws) && ValidRaw(n)
    ensures AllValid(raws + [n]) && Serialize(raws + [n]) == Serialize(raws) + Header(n) + Body(n)
  {
    hide ValidRaw, Header, Body;
    var all := raws + [n];
    assert forall i :: 0 <= i < |all| ==> all[i] == if i < |raws| then raws[i] else n;
    if raws == [] {
      assert all[1..] == [];
      assert Serialize(all) == Header(n) + Body(n) + [];
    } else {
      assert all[1..] == raws[1..] + [n];
      SerializeOneMore(raws[1..], n);
      assert Serialize(all) == Header(raws[0]) + Body(raws[0]) + (Serialize(raws[1..]) + Header(n) + Body(n));
    }
  }

  /** The note that a header and a body make. */
  function NoteOf(header: seq<Byte>, body: seq<Byte>): (n: RawNote)
    requires |header| == 12 && |body| == BodySize(header)
    ensures ValidRaw(n)
  {
    var a, d := Decode32(header[0..4]), Decode32(header[4..8]);
    var k := RoundUp(a, 4);
    RawNote(body[..a], body[a..k], Decode32(header[8..12]), body[k..k + d], body[k + d..])
  }

  lemma NoteOfSerialized(header: seq<Byte>, body: seq<Byte>)
    requires |header| == 12 && |body| == BodySize(header)
    ensures Header(NoteOf(header, body)) == header && Body(NoteOf(header, body)) == body
  {
    hide Decode32, Encode32, RoundUp, ValidRaw;
    Encode32Inverse(header[0..4]);
    Encode32Inverse(header[4..8]);
    Encode32Inverse(header[8..12]);
    assert header == header[0..4] + header[4..8] + header[8..12];
    var a, d := Decode32(header[0..4]), Decode32(header[4..8]);
    PutTogether(body, a, RoundUp(a, 4), RoundUp(a, 4) + d);
  }

  lemma PutTogether(body: seq<Byte>, a: nat, b: nat, c: nat)
    requires a <= b <= c <= |body|
    ensures body[..a] + body[a..b] + body[b..c] + body[c..] == body
  {
  }

  /**
   `iterate_notes`: the notes of a section. Reading always ends, and says whether the notes fill the section
   or what is left lacks part of a header or of a body.
   */
  method IterateNotes(data: seq<Byte>) returns (notes: seq<Note>, end: End)
    ensures Reads(data, notes, end)
  {
    hide Serialize, Decode32, BodySize, ValidRaw, Stripped, NoteOf;
    var parser := new StructParser(data);
    notes, end := [], Complete;
    ghost var raws: seq<RawNote> := [];
    NothingRead(data);
    while parser.Remaining() > 0 && end == Complete
      invariant parser.Valid() && parser.buf == data && fresh(parser)
      invariant AllValid(raws) && notes == AllStripped(raws)
      invariant if end == Complete then data[..parser.pos] == Serialize(raws)
                else exists rest :: ReadsRaw(data, raws, rest, end)
      decreases if end == Complete then 1 + parser.Remaining() else 0
    {
      ghost var from := parser.pos;
      var header := parser.ReadStruct(12);
      if header.None? {
        end := TruncatedHeader;
        StuckAt(data, raws, from, end);
      } else {
        var h := header.value;
        var namesz, descsz, kind := Decode32(h[0..4]), Decode32(h[4..8]), Decode32(h[8..12]);
        var size := RoundUp(namesz, 4) + RoundUp(descsz, 4);
        SizeAnnounced(data, from);
        var body := parser.ReadStruct(size);
        if body.None? {
          end := TruncatedBody;
          StuckAt(data, raws, from, end);
        } else {
          var k := RoundUp(namesz, 4);
          var name := body.value[..k][..namesz];
          if |name| > 0 && name[|name| - 1] == 0 {
            name := name[..|name| - 1];
          }
          NoteRead(data, raws, from, h, body.value);
          StrippedNote(h, body.value);
          notes := notes + [Note(name, kind, body.value[k..][..descsz])];
          raws := raws + [NoteOf(h, body.value)];
        }
      }
    }
    if end == Complete {
      StuckAt(data, raws, |data|, Complete);
    }
  }

  lemma NothingRead(data: seq<Byte>)
    ensures data[..0] == Serialize([])
  {
  }

  lemma StuckAt(data: seq<Byte>, raws: seq<RawNote>, from: nat, end: End)
    requires from <= |data| && AllValid(raws) && data[..from] == Serialize(raws) && Stuck(data[from..], end)
    ensures ReadsRaw(data, raws, data[from..], end)
  {
    assert data == data[..from] + data[from..];
  }

  lemma SizeAnnounced(data: seq<Byte>, from: nat)
    requires from + 12 <= |data|
    ensures var h := data[from..from + 12];
            && BodySize(data[from..]) == BodySize(h)
            && BodySize(h) == RoundUp(Decode32(h[0..4]), 4) + RoundUp(Decode32(h[4..8]), 4)
  {
    var h, r := data[from..from + 12], data[from..];
    assert forall i :: 0 <= i < 12 ==> h[i] == r[i];
    assert h[0..4] == r[0..4];
    assert h[4..8] == r[4..8];
  }

  lemma NoteRead(data: seq<Byte>, raws: seq<RawNote>, from: nat, h: seq<Byte>, body: seq<Byte>)
    requires AllValid(raws) && |h| == 12 && |body| == BodySize(h) && from + 12 + |body| <= |data|
    requires data[..from] == Serialize(raws) && h == data[from..from + 12] && body == data[from + 12..from + 12 + |body|]
    ensures AllValid(raws + [NoteOf(h, body)]) && data[..from + 12 + |body|] == Serialize(raws + [NoteOf(h, body)])
    ensures AllStripped(raws + [NoteOf(h, body)]) == AllStripped(raws) + [Stripped(NoteOf(h, body))]
  {
    hide Serialize, Decode32, BodySize, NoteOf, Header, Body, Stripped;
    SerializeOneMore(raws, NoteOf(h, body));
    NoteOfSerialized(h, body);
    Spliced(data, from, |body|);
  }

  lemma Spliced(data: seq<Byte>, from: nat, n: nat)
    requires from + 12 + n <= |data|
    ensures data[..from + 12 + n] == data[..from] + data[from..from + 12] + data[from + 12..from + 12 + n]
  {
  }

  lemma StrippedNote(h: seq<Byte>, body: seq<Byte>)
    requires |h| == 12 && |body| == BodySize(h)
    ensures var a, k := Decode32(h[0..4]), RoundUp(Decode32(h[0..4]), 4);
            var name := body[..k][..a];
            Stripped(NoteOf(h, body)) == Note(if |name| > 0 && name[|name| - 1] == 0 then name[..|name| - 1] else name,
                                              Decode32(h[8..12]), body[k..][..Decode32(h[4..8])])
  {
    hide Decode32, RoundUp;
    var a, k := Decode32(h[0..4]), RoundUp(Decode32(h[0..4]), 4);
    assert body[..k][..a] == body[..a];
    assert body[k..][..Decode32(h[4..8])] == body[k..k + Decode32(h[4..8])];
  }

  // -------------------------------------------------------------------------
  // Writing notes and reading them back
  // -------------------------------------------------------------------------

  predicate Writable(n: Note) {
    |n.name| + 1 < LIMIT && |n.desc| < LIMIT && n.kind < LIMIT
  }

  predicate AllWritable(ns: seq<Note>) {
    forall i :: 0 <= i < |ns| ==> Writable(ns[i])
  }

  function Zeros(n: nat): (z: seq<Byte>)
    ensures |z| == n
  {
    seq(n, i => 0)
  }

  /** A note as it is to be written: the name, unless it is empty, ends with a NUL, and both parts are padded. */
  function RawOf(n: Note): (r: RawNote)
    requires Writable(n)
    ensures ValidRaw(r) && Stripped(r) == n
  {
    var name: seq<Byte> := if n.name == [] then [] else n.name + [0];
    RawNote(name, Zeros(RoundUp(|name|, 4) - |name|), n.kind, n.desc, Zeros(RoundUp(|n.desc|, 4) - |n.desc|))
  }

  function AllRaw(ns: seq<Note>): (r: seq<RawNote>)
    requires AllWritable(ns)
    ensures AllValid(r) && AllStripped(r) == ns
  {
    seq(|ns|, i requires 0 <= i < |ns| => RawOf(ns[i]))
  }

  /** The section that holds these notes. */
  function Encode(ns: seq<Note>): seq<Byte>
    requires AllWritable(ns)
  {
    Serialize(AllRaw(ns))
  }

  /** What is read from a section that holds some notes is these notes, to the end. */
  lemma RoundTrip(ns: seq<Note>, notes: seq<Note>, end: End)
    requires AllWritable(ns)
    ensures Reads(Encode(ns), notes, end) <==> notes == ns && end == Complete
  {
    hide Serialize;
    var data := Encode(ns);
    assert data == data + [];
    assert ReadsRaw(data, AllRaw(ns), [], Complete);
    if Reads(data, notes, end) { ReadingUnique(data, notes, end, ns, Complete); }
  }

  /** A section is read to its end if and only if it is made of whole notes, whatever fills the padding. */
  lemma CompleteExactly(data: seq<Byte>, notes: seq<Note>)
    ensures Reads(data, notes, Complete) <==>
            exists raws :: AllValid(raws) && data == Serialize(raws) && notes == AllStripped(raws)
  {
    hide Serialize;
    if Reads(data, notes, Complete) {
      var raws, rest :| ReadsRaw(data, raws, rest, Complete) && notes == AllStripped(raws);
      assert Serialize(raws) + [] == Serialize(raws);
    }
    if exists raws :: AllValid(raws) && data == Serialize(raws) && notes == AllStripped(raws) {
      var raws :| AllValid(raws) && data == Serialize(raws) && notes == AllStripped(raws);
      assert data == Serialize(raws) + [];
      assert ReadsRaw(data, raws, [], Complete);
    }
  }

  // -------------------------------------------------------------------------
  // Sections as they are
  // -------------------------------------------------------------------------

  lemma SmallNumber(n: Byte)
    ensures Encode32(n) == [n, 0, 0, 0]
  {
  }

  /** A section with a single note: sizes of name and descriptor, kind, name, descriptor. */
  lemma OneNote(raw: RawNote, data: seq<Byte>, notes: seq<Note>, end: End)
    requires ValidRaw(raw) && data == Header(raw) + Body(raw)
    ensures Reads(data, notes, end) <==> notes == [Stripped(raw)] && end == Complete
  {
    hide Header, Body, ValidRaw, Stripped;
    var raws := [raw];
    assert raws[1..] == [];
    assert data == data + [] && Serialize(raws) == Header(raw) + Body(raw) + [];
    assert AllStripped(raws) == [Stripped(raw)];
    assert ReadsRaw(data, raws, [], Complete);
    if Reads(data, notes, end) { ReadingUnique(data, notes, end, [Stripped(raw)], Complete); }
  }

  const PLAIN: RawNote := RawNote([0x41, 0x42, 0x43, 0], [], 1, [0x15, 0, 0, 0], [])

  lemma PlainParts()
    ensures ValidRaw(PLAIN) && Header(PLAIN) == [0x04, 0, 0, 0, 0x04, 0, 0, 0, 0x01, 0, 0, 0]
    ensures Body(PLAIN) == [0x41, 0x42, 0x43, 0, 0x15, 0, 0, 0]
  {
    hide Encode32, RoundUp;
    var r := RoundUp(4, 4);
    assert r == 4;
    SmallNumber(4);
    SmallNumber(1);
    NoPadding(PLAIN.name, PLAIN.desc);
  }

  lemma NoPadding(name: seq<Byte>, desc: seq<Byte>)
    ensures name + [] + desc + [] == name + desc
  {
  }

  lemma PlainStripped()
    ensures Stripped(PLAIN) == Note([0x41, 0x42, 0x43], 1, [0x15, 0, 0, 0])
  {
    assert [0x41, 0x42, 0x43, 0][..3] == [0x41, 0x42, 0x43];
  }

  /** A note called ABC of kind 1, with four bytes. */
  lemma PlainSection(notes: seq<Note>, end: End)
    ensures Reads([0x04, 0, 0, 0, 0x04, 0, 0, 0, 0x01, 0, 0, 0] + [0x41, 0x42, 0x43, 0, 0x15, 0, 0, 0], notes, end)
            <==> notes == [Note([0x41, 0x42, 0x43], 1, [0x15, 0, 0, 0])] && end == Complete
  {
    hide *;
    PlainParts();
    PlainStripped();
    OneNote(PLAIN, Header(PLAIN) + Body(PLAIN), notes, end);
  }

  const PADDED: RawNote := RawNote([0x41, 0x42], [0xFF, 0xFF], 3, [0x07], [0xEE, 0xEE, 0xEE])

  lemma PaddedParts()
    ensures ValidRaw(PADDED) && Header(PADDED) == [0x02, 0, 0, 0, 0x01, 0, 0, 0, 0x03, 0, 0, 0]
    ensures Body(PADDED) == [0x41, 0x42, 0xFF, 0xFF, 0x07, 0xEE, 0xEE, 0xEE]
    ensures Stripped(PADDED) == Note([0x41, 0x42], 3, [0x07])
  {
    hide Encode32, RoundUp;
    var name, desc := RoundUp(2, 4), RoundUp(1, 4);
    assert name == 4 && desc == 4;
    SmallNumber(2);
    SmallNumber(1);
    SmallNumber(3);
  }

  /** A name of two bytes without NUL, a descriptor of one byte, kind 3, and padding that is not zero. */
  lemma PaddedSection(notes: seq<Note>, end: End)
    ensures Reads([0x02, 0, 0, 0, 0x01, 0, 0, 0, 0x03, 0, 0, 0] + [0x41, 0x42, 0xFF, 0xFF, 0x07, 0xEE, 0xEE, 0xEE], notes, end)
            <==> notes == [Note([0x41, 0x42], 3, [0x07])] && end == Complete
  {
    hide *;
    PaddedParts();
    OneNote(PADDED, Header(PADDED) + Body(PADDED), notes, end);
  }
}
