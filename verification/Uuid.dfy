// Version 1 UUIDs: uuid/timestamp.go, uuid/rfc4122.go, uuid/struct.go, uuid/state.go.
// Machine words are integers with their wrap-around written out.
module Uuid {
  import opened Bits

  const WORD := 0x1_0000_0000_0000_0000

  type Timestamp = t: int | 0 <= t < WORD

  const TICKS_PER_SECOND := 10000000
  const GREGORIAN_TO_UNIX := 0x01B2_1DD2_1381_4000
  const IDS_PER_TIMESTAMP := 1024

  // Times of 60 bits: the timestamp field of section 4.1.4 of RFC 4122.
  const TIME_LIMIT := 0x1000_0000_0000_0000

  // timestamp(): the clock in ticks of 100 ns.
  function Ticks(sec: nat, nsec: nat): Timestamp {
    (sec * TICKS_PER_SECOND + nsec / 100 + GREGORIAN_TO_UNIX) % WORD
  }

  // The clock counts from 15 October 1582: 78 days of that year, 387 years and
  // their 94 leap days before 1970, then the seconds since.
  lemma ClockOrigin(sec: nat, nsec: nat)
    requires ((78 + 387 * 365 + 94) * 86400 + sec) * 10000000 + nsec / 100 < 0x1_0000_0000_0000_0000
    ensures Ticks(sec, nsec) == ((78 + 387 * 365 + 94) * 86400 + sec) * 10000000 + nsec / 100
  {
  }

  // Clock readings 102.5 microseconds apart are 1025 ticks apart.
  lemma TicksApart(sec: nat, nsec: nat, sec': nat, nsec': nat)
    requires (sec' * 1000000000 + nsec') - (sec * 1000000000 + nsec) >= 102500
    requires sec' * TICKS_PER_SECOND + nsec' / 100 + GREGORIAN_TO_UNIX < WORD
    ensures Ticks(sec, nsec) + IDS_PER_TIMESTAMP < Ticks(sec', nsec')
  {
    var t, t' := sec * TICKS_PER_SECOND + nsec / 100, sec' * TICKS_PER_SECOND + nsec' / 100;
    assert 100 * t <= sec * 1000000000 + nsec && sec' * 1000000000 + nsec' < 100 * t' + 100;
  }

  // ----- Clock compensation ---------------------------------------------------

  // lastTimestamp and idsThisTimestamp.
  datatype Counter = Counter(last: Timestamp, ids: nat)

  const FRESH := Counter(0, IDS_PER_TIMESTAMP)

  // A clock reading that currentUUIDTimestamp does not use.
  predicate Spins(g: Counter, reading: Timestamp) {
    reading == g.last && g.ids >= IDS_PER_TIMESTAMP
  }

  function Next(g: Counter, reading: Timestamp): Counter {
    if g.last != reading then Counter(reading, 0) else Counter(reading, g.ids + 1)
  }

  function Stamp(g: Counter): Timestamp {
    (g.last + g.ids) % WORD
  }

  // The readings that successive calls accept.
  predicate Accepted(g: Counter, readings: seq<Timestamp>)
    decreases |readings|
  {
    readings == [] || (!Spins(g, readings[0]) && Accepted(Next(g, readings[0]), readings[1..]))
  }

  function Stamps(g: Counter, readings: seq<Timestamp>): (r: seq<Timestamp>)
    ensures |r| == |readings|
    decreases |readings|
  {
    if readings == [] then []
    else
      var g' := Next(g, readings[0]);
      [Stamp(g')] + Stamps(g', readings[1..])
  }

  // A clock that never goes back, whose distinct readings are at least gap ticks
  // apart, and whose times fit.
  ghost predicate Coarse(readings: seq<Timestamp>, gap: nat) {
    && (forall i :: 0 <= i < |readings| ==> readings[i] + IDS_PER_TIMESTAMP < TIME_LIMIT)
    && (forall i, j :: 0 <= i < j < |readings| ==>
          readings[i] == readings[j] || readings[i] + gap <= readings[j])
  }

  ghost predicate Increasing(stamps: seq<Timestamp>) {
    forall i, j :: 0 <= i < j < |stamps| ==> stamps[i] < stamps[j]
  }

  // The counter holds an earlier reading of the same clock, or the same one.
  ghost predicate Ahead(g: Counter, readings: seq<Timestamp>, gap: nat) {
    && g.ids <= IDS_PER_TIMESTAMP && g.last + IDS_PER_TIMESTAMP < TIME_LIMIT
    && forall i :: 0 <= i < |readings| ==> readings[i] == g.last || g.last + gap <= readings[i]
  }

  lemma IncreasingFrom(first: Timestamp, rest: seq<Timestamp>)
    requires Increasing(rest) && forall i :: 0 <= i < |rest| ==> first < rest[i]
    ensures Increasing([first] + rest)
  {
  }

  lemma {:induction false} StampsAbove(g: Counter, readings: seq<Timestamp>, gap: nat)
    requires Ahead(g, readings, gap) && Coarse(readings, gap) && Accepted(g, readings) && gap > 1024
    ensures Increasing(Stamps(g, readings))
    ensures forall i :: 0 <= i < |readings| ==> Stamp(g) < Stamps(g, readings)[i] < TIME_LIMIT
    decreases |readings|
  {
    if readings != [] {
      var g' := Next(g, readings[0]);
      assert Stamp(g) < Stamp(g') < TIME_LIMIT;
      StampsAbove(g', readings[1..], gap);
      IncreasingFrom(Stamp(g'), Stamps(g', readings[1..]));
    }
  }

  // The first call accepts any reading but 0 and counts from it.
  lemma FreshStamps(readings: seq<Timestamp>, gap: nat)
    requires Coarse(readings, gap) && Accepted(FRESH, readings) && gap > IDS_PER_TIMESTAMP
    ensures Increasing(Stamps(FRESH, readings))
    ensures forall i :: 0 <= i < |readings| ==> Stamps(FRESH, readings)[i] < TIME_LIMIT
  {
    if readings != [] {
      hide Ahead, Coarse, Accepted, Stamps;
      FirstReading(readings, gap);
      var g' := Counter(readings[0], 0);
      StampsAbove(g', readings[1..], gap);
      FirstStamp(readings);
      IncreasingFrom(readings[0], Stamps(g', readings[1..]));
    }
  }

  lemma FirstReading(readings: seq<Timestamp>, gap: nat)
    requires readings != [] && Coarse(readings, gap) && Accepted(FRESH, readings)
    ensures readings[0] != 0 && readings[0] < TIME_LIMIT
    ensures var g := Counter(readings[0], 0);
            Ahead(g, readings[1..], gap) && Coarse(readings[1..], gap) && Accepted(g, readings[1..])
  {
  }

  lemma FirstStamp(readings: seq<Timestamp>)
    requires readings != [] && readings[0] != 0
    ensures Stamp(Counter(readings[0], 0)) == readings[0]
    ensures Stamps(FRESH, readings) == [readings[0]] + Stamps(Counter(readings[0], 0), readings[1..])
  {
  }

  lemma SmallStamp(g: Counter)
    requires g.last + g.ids < TIME_LIMIT
    ensures Stamp(g) == g.last + g.ids
  {
  }

  // n calls during one reading of the clock.
  function Repeated(reading: Timestamp, n: nat): (r: seq<Timestamp>)
    ensures |r| == n && forall i :: 0 <= i < n ==> r[i] == reading
  {
    seq(n, _ => reading)
  }

  lemma {:induction false} StampsAt(g: Counter, reading: Timestamp, n: nat, rest: seq<Timestamp>)
    requires g.last == reading && g.ids + n <= IDS_PER_TIMESTAMP && reading + 2 * IDS_PER_TIMESTAMP < TIME_LIMIT
    requires Accepted(Counter(reading, g.ids + n), rest)
    ensures var readings := Repeated(reading, n) + rest;
            && Accepted(g, readings)
            && Stamps(g, readings)[n..] == Stamps(Counter(reading, g.ids + n), rest)
            && forall i :: 0 <= i < n ==> Stamps(g, readings)[i] == reading + g.ids + 1 + i
    decreases n
  {
    hide Stamp;
    var readings := Repeated(reading, n) + rest;
    if n == 0 {
      assert readings == rest && Counter(reading, g.ids) == g;
    } else {
      assert readings[1..] == Repeated(reading, n - 1) + rest;
      SmallStamp(Next(g, reading));
      StampsAt(Next(g, reading), reading, n - 1, rest);
      assert Stamps(g, readings) == [reading + g.ids + 1] + Stamps(Next(g, reading), readings[1..]);
    }
  }

  // A clock that moves on by gap <= 1024 after gap + 1 calls in one reading.
  function ClashingReadings(gap: nat): seq<Timestamp>
    requires 1 <= gap <= IDS_PER_TIMESTAMP
  {
    [1] + (Repeated(1, gap) + [1 + gap])
  }

  lemma ClashingStamps(gap: nat)
    requires 1 <= gap <= IDS_PER_TIMESTAMP
    ensures var readings := ClashingReadings(gap);
            && Coarse(readings, gap) && Accepted(FRESH, readings)
            && Stamps(FRESH, readings)[gap] == Stamps(FRESH, readings)[gap + 1]
  {
    var rest := [1 + gap];
    var readings := ClashingReadings(gap);
    var first := Counter(1, 0);
    assert rest[1..] == [] && Stamps(Counter(1, gap), rest) == [1 + gap];
    StampsAt(first, 1, gap, rest);
    assert readings[1..] == Repeated(1, gap) + rest;
    assert Stamps(FRESH, readings) == [1] + Stamps(first, readings[1..]);
  }

  // The compensation works exactly for clocks that move by more than 1024 ticks.
  lemma CompensationThreshold(gap: nat)
    requires gap >= 1
    ensures (forall readings :: Coarse(readings, gap) && Accepted(FRESH, readings) ==>
               Increasing(Stamps(FRESH, readings)))
            <==> gap > 1024
  {
    if gap > IDS_PER_TIMESTAMP {
      forall readings | Coarse(readings, gap) && Accepted(FRESH, readings)
        ensures Increasing(Stamps(FRESH, readings))
      {
        FreshStamps(readings, gap);
      }
    } else {
      ClashingStamps(gap);
      var stamps := Stamps(FRESH, ClashingReadings(gap));
      assert !Increasing(stamps) by { assert stamps[gap] == stamps[gap + 1]; }
    }
  }

  // ----- Layout ---------------------------------------------------------------

  type Byte = b: int | 0 <= b < 0x100

  datatype Layout = Layout(
    timeLow: nat, timeMid: nat, timeHiAndVersion: nat,
    sequenceHiAndVariant: Byte, sequenceLow: Byte, node: seq<Byte>)

  predicate Wide(l: Layout) {
    l.timeLow < 0x1_0000_0000 && l.timeMid < 0x1_0000 && l.timeHiAndVersion < 0x1_0000
  }

  const RESERVED_RFC4122: Byte := 0x80

  function FormatV1(now: Timestamp, sequence: nat, node: seq<Byte>): (l: Layout)
    ensures Wide(l)
  {
    Layout(now % 0x1_0000_0000,
           now / 0x1_0000_0000 % 0x1_0000,
           now / 0x1_0000_0000_0000 % 0x1000 + 1 * 0x1000,
           sequence / 0x100 % 0x40 + RESERVED_RFC4122,
           sequence % 0x100,
           node)
  }

  // The masks, shifts and or-assignments of formatV1, in arithmetic.
  lemma TimeFields(now: Timestamp)
    ensures And(now, 0xFFFF_FFFF) == now % 0x1_0000_0000
    ensures And(Shr(now, 32), 0xFFFF) == now / 0x1_0000_0000 % 0x1_0000
    ensures And(Shr(now, 48), 0x0FFF) == now / 0x1_0000_0000_0000 % 0x1000
    ensures Or(now / 0x1_0000_0000_0000 % 0x1000, Shl(1, 12)) == now / 0x1_0000_0000_0000 % 0x1000 + 0x1000
  {
    hide And, Or, Shl, Shr, Pow2;
    Powers();
    LowField(now, 32, 0x1_0000_0000);
    FieldAt(now, 32, 0x1_0000_0000, 16, 0x1_0000);
    FieldAt(now, 48, 0x1_0000_0000_0000, 12, 0x1000);
    FieldAbove(now / 0x1_0000_0000_0000 % 0x1000, 1, 12, 0x1000);
  }

  lemma SequenceFields(sequence: nat)
    ensures And(sequence, 0xFF) == sequence % 0x100
    ensures Shr(And(sequence, 0x3F00), 8) == sequence / 0x100 % 0x40
    ensures Or(sequence / 0x100 % 0x40, 0x80) == sequence / 0x100 % 0x40 + 0x80
  {
    hide And, Or, Shr, Pow2;
    Powers();
    LowField(sequence, 8, 0x100);
    MaskedField(sequence, 0x3F00, 8, 0x100, 6, 0x40);
    FieldAbove(sequence / 0x100 % 0x40, 1, 7, 0x80);
    ShiftsAreArithmetic(1, 7);
  }

  lemma LowNibble(version: nat)
    ensures version * 0x1000 % 0x1_0000 == version % 0x10 * 0x1000
  {
    assert version == version / 0x10 * 0x10 + version % 0x10;
  }

  lemma VersionField(time: nat, version: nat)
    ensures And(time, 0x0FFF) == time % 0x1000 && And(Shl(version, 12), 0xFFFF) == Shl(version % 0x10, 12)
    ensures Or(time % 0x1000, Shl(version % 0x10, 12)) == time % 0x1000 + version % 0x10 * 0x1000
  {
    hide And, Or, Shl, Pow2;
    Powers();
    LowField(time, 12, 0x1000);
    LowField(Shl(version, 12), 16, 0x1_0000);
    ShiftsAreArithmetic(version, 12);
    ShiftsAreArithmetic(version % 0x10, 12);
    LowNibble(version);
    FieldAbove(time % 0x1000, version % 0x10, 12, 0x1000);
  }

  lemma WordOr(high: Byte, low: Byte)
    ensures Or(low, Shl(high, 8)) == Word(high, low)
  {
    hide Or, Shl, Pow2;
    Powers();
    FieldAbove(low, high, 8, 0x100);
  }

  lemma LongOr(d0: Byte, d1: Byte, d2: Byte, d3: Byte)
    ensures Or(Or(Or(d3, Shl(d2, 8)), Shl(d1, 16)), Shl(d0, 24)) == Word(d0, d1) * 0x1_0000 + Word(d2, d3)
  {
    hide Or, Shl, Pow2;
    Powers();
    WordOr(d2, d3);
    FieldAbove(Word(d2, d3), d1, 16, 0x1_0000);
    FieldAbove(Word(d2, d3) + d1 * 0x1_0000, d0, 24, 0x100_0000);
  }

  lemma HighHalf(w: nat)
    ensures w / 0x100_0000 == w / 0x1_0000 / 0x100
  {
  }

  lemma LowHalf(w: nat)
    ensures w % 0x1_0000 / 0x100 % 0x100 == w / 0x100 % 0x100 && w % 0x1_0000 % 0x100 == w % 0x100
  {
    var q, r := w / 0x1_0000, w % 0x1_0000;
    assert w / 0x100 == 0x100 * q + r / 0x100;
  }

  lemma LongBytes(w: nat)
    ensures Shr(w, 24) % 0x100 == High(w / 0x1_0000) && Shr(w, 16) % 0x100 == Low(w / 0x1_0000)
    ensures Shr(w, 8) % 0x100 == High(w % 0x1_0000) && w % 0x100 == Low(w % 0x1_0000)
  {
    hide Shr, Pow2;
    Powers();
    ShiftsAreArithmetic(w, 24);
    ShiftsAreArithmetic(w, 16);
    ShiftsAreArithmetic(w, 8);
    HighHalf(w);
    LowHalf(w);
  }

  lemma WordBytes(w: nat)
    ensures Shr(w, 8) % 0x100 == High(w) && w % 0x100 == Low(w)
  {
    hide Shr, Pow2;
    Powers();
    ShiftsAreArithmetic(w, 8);
  }

  function Version(l: Layout): nat {
    l.timeHiAndVersion / 0x1000
  }

  // variant: the three high bits.
  function Variant(b: Byte): Byte {
    var bits := b / 0x20 * 0x20;
    if bits == 0x80 || bits == 0xA0 then 0x80
    else if bits == 0xC0 then 0xC0
    else if bits == 0xE0 then 0xE0
    else 0x00
  }

  // The two bytes of a 16-bit word, and the word of two bytes.
  function High(w: nat): Byte {
    w / 0x100 % 0x100
  }

  function Low(w: nat): Byte {
    w % 0x100
  }

  function Word(high: Byte, low: Byte): (w: nat)
    ensures w < 0x1_0000 && High(w) == high && Low(w) == low
  {
    (high as int) * 0x100 + low as int
  }

  lemma WordOfBytes(w: nat)
    requires w < 0x1_0000
    ensures Word(High(w), Low(w)) == w
  {
    assert w / 0x100 % 0x100 == w / 0x100;
  }

  function Bytes(l: Layout): seq<Byte> {
    [High(l.timeLow / 0x1_0000), Low(l.timeLow / 0x1_0000), High(l.timeLow % 0x1_0000), Low(l.timeLow % 0x1_0000),
     High(l.timeMid), Low(l.timeMid), High(l.timeHiAndVersion), Low(l.timeHiAndVersion),
     l.sequenceHiAndVariant, l.sequenceLow] + l.node
  }

  function Parsed(d: seq<Byte>): (l: Layout)
    requires |d| >= 10
    ensures Wide(l)
  {
    Layout(Word(d[0], d[1]) * 0x1_0000 + Word(d[2], d[3]), Word(d[4], d[5]), Word(d[6], d[7]), d[8], d[9], d[10..])
  }

  lemma ParseBytes(l: Layout)
    requires Wide(l)
    ensures Parsed(Bytes(l)) == l
  {
    hide High, Low, Word;
    WordOfBytes(l.timeLow / 0x1_0000);
    WordOfBytes(l.timeLow % 0x1_0000);
    WordOfBytes(l.timeMid);
    WordOfBytes(l.timeHiAndVersion);
    assert Bytes(l)[10..] == l.node;
  }

  // The order of the bytes: section 4.1.2 of RFC 4122, most significant first.
  lemma NetworkOrder(d: seq<Byte>)
    requires |d| >= 10
    ensures var l := Parsed(d);
            && l.timeLow == 0x100_0000 * (d[0] as int) + 0x1_0000 * (d[1] as int) + 0x100 * (d[2] as int) + d[3] as int
            && l.timeMid == 0x100 * (d[4] as int) + d[5] as int
            && l.timeHiAndVersion == 0x100 * (d[6] as int) + d[7] as int
            && l.sequenceHiAndVariant == d[8] && l.sequenceLow == d[9] && l.node == d[10..]
  {
  }

  lemma BytesParse(d: seq<Byte>)
    requires |d| >= 10
    ensures Bytes(Parsed(d)) == d
  {
    hide High, Low, Word;
    var l := Parsed(d);
    assert l.timeLow / 0x1_0000 == Word(d[0], d[1]) && l.timeLow % 0x1_0000 == Word(d[2], d[3]);
    assert d == d[..10] + d[10..];
    assert d[..10] == [d[0], d[1], d[2], d[3], d[4], d[5], d[6], d[7], d[8], d[9]];
  }

  // The 60-bit time and the 14-bit sequence, read back from the fields.
  function TimeOf(l: Layout): nat {
    l.timeLow + 0x1_0000_0000 * l.timeMid + 0x1_0000_0000_0000 * (l.timeHiAndVersion % 0x1000)
  }

  function SequenceOf(l: Layout): nat {
    l.sequenceLow + 0x100 * (l.sequenceHiAndVariant % 0x40)
  }

  lemma FieldsRecovered(now: Timestamp, sequence: nat, node: seq<Byte>)
    ensures var l := FormatV1(now, sequence, node);
            && TimeOf(l) == now % TIME_LIMIT && SequenceOf(l) == sequence % 0x4000 && l.node == node
            && Version(l) == 1 && Variant(l.sequenceHiAndVariant) == RESERVED_RFC4122
            && l.sequenceHiAndVariant / 0x40 == 2
  {
    hide Variant;
    TimeDigits(now);
    VariantKept(sequence / 0x100 % 0x40);
    SequenceDigits(sequence);
  }

  lemma SequenceDigits(sequence: nat)
    ensures sequence % 0x4000 == sequence % 0x100 + 0x100 * (sequence / 0x100 % 0x40)
  {
  }

  lemma TimeDigits(now: nat)
    ensures now % TIME_LIMIT
         == now % 0x1_0000_0000 + 0x1_0000_0000 * (now / 0x1_0000_0000 % 0x1_0000)
            + 0x1_0000_0000_0000 * (now / 0x1_0000_0000_0000 % 0x1000)
  {
    var rest := now / 0x1_0000_0000;
    assert rest / 0x1_0000 == now / 0x1_0000_0000_0000;
    assert rest / 0x1_0000 / 0x1000 == now / TIME_LIMIT;
  }

  lemma VariantKept(high: nat)
    requires high < 0x40
    ensures Variant(high + RESERVED_RFC4122) == RESERVED_RFC4122
  {
  }

  // Two version 1 UUIDs have the same bytes exactly if time, sequence and node
  // agree in the bits that the layout keeps.
  lemma SameBytesIff(now: Timestamp, sequence: nat, node: seq<Byte>,
                     now': Timestamp, sequence': nat, node': seq<Byte>)
    ensures Bytes(FormatV1(now, sequence, node)) == Bytes(FormatV1(now', sequence', node'))
            <==> now % TIME_LIMIT == now' % TIME_LIMIT && sequence % 0x4000 == sequence' % 0x4000 && node == node'
  {
    hide FormatV1, Bytes, Parsed, TimeOf, SequenceOf;
    var l, l' := FormatV1(now, sequence, node), FormatV1(now', sequence', node');
    FieldsRecovered(now, sequence, node);
    FieldsRecovered(now', sequence', node');
    ParseBytes(l);
    ParseBytes(l');
    if now % TIME_LIMIT == now' % TIME_LIMIT && sequence % 0x4000 == sequence' % 0x4000 && node == node' {
      SameFields(l, l');
    }
  }

  lemma SameFields(l: Layout, l': Layout)
    requires Wide(l) && Wide(l') && Version(l) == Version(l') == 1
    requires l.sequenceHiAndVariant / 0x40 == l'.sequenceHiAndVariant / 0x40
    requires TimeOf(l) == TimeOf(l') && SequenceOf(l) == SequenceOf(l') && l.node == l'.node
    ensures l == l'
  {
    assert l.timeLow == l'.timeLow;
    assert l.timeMid == l'.timeMid;
  }

  // ----- The generator over a run ---------------------------------------------

  // What State.read keeps between two UUIDs.
  datatype Saved = Saved(past: Timestamp, node: seq<Byte>, sequence: nat, randomSequence: bool)

  // State.read, with the random number it may draw.
  function Read(s: Saved, now: Timestamp, node: seq<Byte>, random: nat): Saved {
    var sequence :=
      if node == s.node || s.randomSequence then random % 0x4000
      else if now < s.past then (s.sequence + 1) % 0x1_0000
      else s.sequence;
    Saved(now, node, sequence, s.randomSequence)
  }

  // A clock that went back changes the 14 bits of the sequence that a UUID shows.
  lemma BackwardsClockShows(s: Saved, now: Timestamp, node: seq<Byte>, random: nat)
    requires !s.randomSequence && node != s.node && now < s.past
    ensures SequenceOf(FormatV1(now, Read(s, now, node, random).sequence, node))
            != SequenceOf(FormatV1(now, s.sequence, node))
  {
  }

  // The sequence that a UUID shows: a random one if the node is the one of the
  // last UUID or on demand, the next one if the clock went back, else the same.
  lemma SequenceShown(s: Saved, now: Timestamp, node: seq<Byte>, random: nat)
    ensures var shown := SequenceOf(FormatV1(now, Read(s, now, node, random).sequence, node));
            shown == (if node == s.node || s.randomSequence then random
                      else if now < s.past then s.sequence + 1 else s.sequence) % 0x4000
    ensures var t := Read(s, now, node, random); t.past == now && t.node == node && t.randomSequence == s.randomSequence
  {
    hide FormatV1, SequenceOf, TimeOf, Version, Variant;
    FieldsRecovered(now, Read(s, now, node, random).sequence, node);
    Shortened(s.sequence + 1);
    Shortened(random);
  }

  lemma Shortened(n: nat)
    ensures n % 0x1_0000 % 0x4000 == n % 0x4000 == n % 0x4000 % 0x4000
  {
    assert n % 0x1_0000 == n - 0x4000 * (4 * (n / 0x1_0000));
    assert n / 0x4000 == 4 * (n / 0x1_0000) + n % 0x1_0000 / 0x4000;
  }

  // One call of NewV1: the reading it uses, its node, its random number.
  datatype Call = Call(reading: Timestamp, node: seq<Byte>, random: nat)

  function Readings(calls: seq<Call>): (r: seq<Timestamp>)
    ensures |r| == |calls| && forall i :: 0 <= i < |calls| ==> r[i] == calls[i].reading
  {
    seq(|calls|, i requires 0 <= i < |calls| => calls[i].reading)
  }

  function Mint(g: Counter, s: Saved, call: Call): Layout {
    var now := Stamp(Next(g, call.reading));
    var s' := Read(s, now, call.node, call.random);
    FormatV1(now, s'.sequence, s'.node)
  }

  function Minted(g: Counter, s: Saved, calls: seq<Call>): (r: seq<Layout>)
    ensures |r| == |calls|
    decreases |calls|
  {
    if calls == [] then []
    else
      var g' := Next(g, calls[0].reading);
      [Mint(g, s, calls[0])] + Minted(g', Read(s, Stamp(g'), calls[0].node, calls[0].random), calls[1..])
  }

  lemma {:induction false} MintedTimes(g: Counter, s: Saved, calls: seq<Call>)
    ensures forall i :: 0 <= i < |calls| ==>
              var l := Minted(g, s, calls)[i];
              && Wide(l) && TimeOf(l) == Stamps(g, Readings(calls))[i] % TIME_LIMIT
              && Version(l) == 1 && Variant(l.sequenceHiAndVariant) == RESERVED_RFC4122
    decreases |calls|
  {
    if calls != [] {
      hide FormatV1, TimeOf, Version, Variant, Wide;
      var g' := Next(g, calls[0].reading);
      var s' := Read(s, Stamp(g'), calls[0].node, calls[0].random);
      FieldsRecovered(Stamp(g'), s'.sequence, s'.node);
      MintedTimes(g', s', calls[1..]);
      assert Readings(calls)[1..] == Readings(calls[1..]);
    }
  }

  // All UUIDs of a run have different bytes, whatever nodes and sequences the
  // calls draw, and all are version 1 UUIDs of RFC 4122.
  lemma AllDifferent(s: Saved, calls: seq<Call>, gap: nat)
    requires gap > 1024
    requires Coarse(Readings(calls), gap) && Accepted(FRESH, Readings(calls))
    ensures forall i, j :: 0 <= i < j < |calls| ==>
              Bytes(Minted(FRESH, s, calls)[i]) != Bytes(Minted(FRESH, s, calls)[j])
    ensures forall i :: 0 <= i < |calls| ==>
              var l := Minted(FRESH, s, calls)[i];
              Version(l) == 1 && Variant(l.sequenceHiAndVariant) == RESERVED_RFC4122
  {
    hide Minted, Bytes, Parsed, TimeOf, Version, Variant, Stamps, Coarse, Accepted, Wide;
    MintedTimes(FRESH, s, calls);
    FreshStamps(Readings(calls), gap);
    forall i, j | 0 <= i < j < |calls|
      ensures Bytes(Minted(FRESH, s, calls)[i]) != Bytes(Minted(FRESH, s, calls)[j])
    {
      ParseBytes(Minted(FRESH, s, calls)[i]);
      ParseBytes(Minted(FRESH, s, calls)[j]);
      assert Stamps(FRESH, Readings(calls))[i] < Stamps(FRESH, Readings(calls))[j];
    }
  }

  // ----- The objects of the program -------------------------------------------

  // Struct: the fields that Unmarshal and setVersion change in place.
  class Struct {
    var timeLow: nat
    var timeMid: nat
    var timeHiAndVersion: nat
    var sequenceHiAndVariant: Byte
    var sequenceLow: Byte
    var node: seq<Byte>
    var size: nat

    constructor ()
      ensures View() == Layout(0, 0, 0, 0, 0, []) && size == 0
    {
      timeLow, timeMid, timeHiAndVersion, sequenceHiAndVariant, sequenceLow, node, size := 0, 0, 0, 0, 0, [], 0;
    }

    ghost function View(): Layout
      reads this
    {
      Layout(timeLow, timeMid, timeHiAndVersion, sequenceHiAndVariant, sequenceLow, node)
    }

    method Unmarshal(data: seq<Byte>)
      requires |data| == size >= 10
      modifies this
      ensures View() == Parsed(data) && size == old(size)
    {
      hide Or, Shl;
      LongOr(data[0], data[1], data[2], data[3]);
      WordOr(data[4], data[5]);
      WordOr(data[6], data[7]);
      timeLow := Or(Or(Or(data[3], Shl(data[2], 8)), Shl(data[1], 16)), Shl(data[0], 24));
      timeMid := Or(data[5], Shl(data[4], 8));
      timeHiAndVersion := Or(data[7], Shl(data[6], 8));
      sequenceHiAndVariant := data[8];
      sequenceLow := data[9];
      node := data[10..size];
    }

    method Marshal() returns (data: seq<Byte>)
      ensures data == Bytes(View())
    {
      hide Shr;
      LongBytes(timeLow);
      WordBytes(timeMid);
      WordBytes(timeHiAndVersion);
      data := [Shr(timeLow, 24) % 0x100, Shr(timeLow, 16) % 0x100, Shr(timeLow, 8) % 0x100, timeLow % 0x100,
               Shr(timeMid, 8) % 0x100, timeMid % 0x100,
               Shr(timeHiAndVersion, 8) % 0x100, timeHiAndVersion % 0x100];
      data := data + [sequenceHiAndVariant];
      data := data + [sequenceLow];
      data := data + node;
    }

    method SetVersion(version: nat)
      requires Wide(View())
      modifies `timeHiAndVersion
      ensures Wide(View()) && Version(View()) == version % 0x10
      ensures TimeOf(View()) == old(TimeOf(View()))
    {
      hide And, Or, Shl;
      VersionField(timeHiAndVersion, version);
      timeHiAndVersion := And(timeHiAndVersion, 0x0FFF);
      timeHiAndVersion := Or(timeHiAndVersion, And(Shl(version, 12), 0xFFFF));
    }
  }

  // The globals of the package behind the lock of NewV1.
  class Factory {
    const clock: nat -> Timestamp // the readings timestamp() will return
    var position: nat
    var last: Timestamp
    var ids: nat
    var past: Timestamp
    var node: seq<Byte>
    var sequence: nat
    var randomSequence: bool

    constructor (clock: nat -> Timestamp, saved: Saved)
      ensures this.clock == clock && position == 0 && Count() == FRESH && State() == saved
    {
      this.clock, position, last, ids := clock, 0, 0, IDS_PER_TIMESTAMP;
      past, node, sequence, randomSequence := saved.past, saved.node, saved.sequence, saved.randomSequence;
    }

    ghost function Count(): Counter
      reads this
    {
      Counter(last, ids)
    }

    ghost function State(): Saved
      reads this
    {
      Saved(past, node, sequence, randomSequence)
    }

    // Spins until a reading can be used; there must be one.
    method CurrentTimestamp() returns (now: Timestamp)
      requires exists k :: k >= position && !Spins(Count(), clock(k))
      modifies `position, `last, `ids
      ensures position > old(position) && !Spins(old(Count()), clock(position - 1))
      ensures forall k :: old(position) <= k < position - 1 ==> Spins(old(Count()), clock(k))
      ensures Count() == Next(old(Count()), clock(position - 1)) && now == Stamp(Count())
    {
      ghost var used :| used >= position && !Spins(Count(), clock(used));
      var timeNow;
      while true
        invariant old(position) <= position <= used && Count() == old(Count())
        invariant forall k :: old(position) <= k < position ==> Spins(old(Count()), clock(k))
        decreases used - position
      {
        timeNow := clock(position);
        position := position + 1;
        if last != timeNow {
          ids := 0;
          last := timeNow;
          break;
        }
        if ids < IDS_PER_TIMESTAMP {
          ids := ids + 1;
          break;
        }
      }
      return (timeNow + ids) % WORD;
    }

    method ReadState(now: Timestamp, newNode: seq<Byte>, random: nat)
      modifies `past, `node, `sequence
      ensures State() == Read(old(State()), now, newNode, random)
    {
      if newNode == node || randomSequence {
        sequence := random % 0x4000;
      } else if now < past {
        sequence := (sequence + 1) % 0x1_0000;
      }
      past := now;
      node := newNode;
    }

    // formatV1
    method Format(now: Timestamp) returns (o: Struct)
      ensures fresh(o) && o.View() == FormatV1(now, sequence, node) && o.size == 16
    {
      o := new Struct();
      hide And, Or, Shl, Shr;
      TimeFields(now);
      SequenceFields(sequence);
      o.timeLow := And(now, 0xFFFF_FFFF);
      o.timeMid := And(Shr(now, 32), 0xFFFF);
      o.timeHiAndVersion := And(Shr(now, 48), 0x0FFF);
      o.timeHiAndVersion := Or(o.timeHiAndVersion, Shl(1, 12));
      o.sequenceLow := And(sequence, 0xFF);
      o.sequenceHiAndVariant := Shr(And(sequence, 0x3F00), 8);
      o.sequenceHiAndVariant := Or(o.sequenceHiAndVariant, RESERVED_RFC4122);
      o.node := node;
      o.size := 16;
    }

    method NewV1(newNode: seq<Byte>, random: nat) returns (o: Struct)
      requires exists k :: k >= position && !Spins(Count(), clock(k))
      modifies this
      ensures position > old(position) && !Spins(old(Count()), clock(position - 1))
      ensures var call := Call(clock(position - 1), newNode, random);
              && fresh(o) && o.View() == Mint(old(Count()), old(State()), call)
              && Count() == Next(old(Count()), call.reading)
              && State() == Read(old(State()), Stamp(Count()), newNode, random)
    {
      hide FormatV1;
      var now := CurrentTimestamp();
      ReadState(now, newNode, random);
      o := Format(now);
    }
  }
}
