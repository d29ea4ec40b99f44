/**
 The key source report's binary grammar: a canonical encoding, the parser's checks as a function,
 and the parser's own cursor loop, with the round trips between them.
 */
module KeySourceReport {

  import opened Basics
  import opened Bytes

  /** The resource model the report is checked against. */
  datatype Model = Model(
    participantCount: int,
    optionCount: int,
    degree: int,
    magnitudeBytes: nat,     // the coefficient bytes without the sign
    commonSampleBits: int,
    samplePositions: seq<int>,
    modulus: nat
  )

  const DIGEST := 64

  datatype Sample = Sample(position: int, value: int)

  datatype Report = Report(originalDigest: seq<byte>, restoredDigest: seq<byte>, samples: seq<Sample>)

  function Dimensions(m: Model): seq<int> {
    [m.participantCount, m.optionCount, m.degree, m.magnitudeBytes, m.commonSampleBits, |m.samplePositions|]
  }

  function RecordBytes(m: Model): nat {
    5 + m.magnitudeBytes
  }

  function ReportBytes(m: Model): nat {
    6 * 4 + 2 * DIGEST + |m.samplePositions| * RecordBytes(m)
  }

  /** The model's numbers are the unsigned words the format holds. */
  predicate Fits(m: Model) {
    && (forall d | d in Dimensions(m) :: Word(d))
    && (forall p | p in m.samplePositions :: Word(p))
  }

  // ----- The encoding -----

  function EncodeWords(values: seq<int>): (r: seq<byte>)
    requires forall v | v in values :: Word(v)
    ensures |r| == 4 * |values|
  {
    if values == [] then []
    else
      assert values[0] in values && Word(values[0]);
      LittleEndian(values[0], 4) + EncodeWords(values[1..])
  }

  function EncodeSample(m: Model, s: Sample): (r: seq<byte>)
    requires Word(s.position)
    ensures |r| == RecordBytes(m)
  {
    LittleEndian(s.position, 4)
    + [if s.value < 0 then 1 else 0]
    + LittleEndian(if s.value < 0 then -s.value else s.value, m.magnitudeBytes)
  }

  function EncodeSamples(m: Model, samples: seq<Sample>): (r: seq<byte>)
    requires forall s | s in samples :: Word(s.position)
    ensures |r| == |samples| * RecordBytes(m)
  {
    if samples == [] then [] else EncodeSample(m, samples[0]) + EncodeSamples(m, samples[1..])
  }

  /** A centered value that its magnitude bytes can hold. */
  predicate Centered(m: Model, value: int) {
    var magnitude := if value < 0 then -value else value;
    magnitude <= m.modulus / 2 && magnitude < Power(m.magnitudeBytes)
  }

  predicate ReportOk(m: Model, r: Report) {
    && |r.originalDigest| == DIGEST
    && r.restoredDigest == r.originalDigest
    && SamplesOk(m, m.samplePositions, r.samples)
  }

  predicate SamplesOk(m: Model, positions: seq<int>, samples: seq<Sample>) {
    && |samples| == |positions|
    && forall i | 0 <= i < |samples| :: samples[i].position == positions[i] && Centered(m, samples[i].value)
  }

  function Encode(m: Model, r: Report): seq<byte>
    requires Fits(m) && ReportOk(m, r)
  {
    assert forall s | s in r.samples :: s.position in m.samplePositions;
    EncodeWords(Dimensions(m)) + r.originalDigest + r.restoredDigest + EncodeSamples(m, r.samples)
  }

  // ----- The parser's checks -----

  /** One record: its position, a canonical sign, and a centered magnitude that is not negative zero. */
  function DecodeSample(m: Model, position: int, record: seq<byte>): Option<Sample>
    requires |record| == RecordBytes(m)
  {
    var sign, magnitude: int := record[4], Value(record[5..]);
    if Value(record[..4]) != position || sign > 1 || magnitude > m.modulus / 2 || (sign == 1 && magnitude == 0)
    then None
    else Some(Sample(position, if sign == 0 then magnitude else -magnitude))
  }

  function DecodeSamples(m: Model, positions: seq<int>, bytes: seq<byte>): Option<seq<Sample>>
    requires |bytes| == |positions| * RecordBytes(m)
  {
    if positions == [] then Some([])
    else
      var first := DecodeSample(m, positions[0], bytes[..RecordBytes(m)]);
      var rest := DecodeSamples(m, positions[1..], bytes[RecordBytes(m)..]);
      if first.None? || rest.None? then None else Some([first.value] + rest.value)
  }

  predicate WordsAre(bytes: seq<byte>, values: seq<int>)
    requires |bytes| == 4 * |values|
  {
    forall i | 0 <= i < |values| :: Value(bytes[4 * i..4 * i + 4]) == values[i]
  }

  function Decode(m: Model, bytes: seq<byte>): Option<Report> {
    if |bytes| != ReportBytes(m) || !WordsAre(bytes[..24], Dimensions(m)) || bytes[24..88] != bytes[88..152] then None
    else
      var samples := DecodeSamples(m, m.samplePositions, bytes[152..]);
      if samples.None? then None else Some(Report(bytes[24..88], bytes[88..152], samples.value))
  }

  // ----- The report byte for byte -----

  /** A sample stands in its record: its position, its sign, and a magnitude that is centered and no negative zero. */
  predicate Stands(m: Model, position: int, record: seq<byte>, s: Sample)
    requires |record| == 5 + m.magnitudeBytes
  {
    var magnitude: int := Value(record[5..]);
    && Value(record[0..4]) == position && s.position == position
    && (record[4] == 0 || (record[4] == 1 && magnitude != 0))
    && magnitude <= m.modulus / 2
    && s.value == if record[4] == 0 then magnitude else -magnitude
  }

  lemma RecordInside(length: nat, count: nat, k: nat)
    requires k < count
    ensures 0 <= k * length <= k * length + length <= count * length
  {
    assert (count - k - 1) * length >= 0;
    assert k * length + length + (count - k - 1) * length == count * length;
  }

  /** The k-th of so many records of one length. */
  function RecordOf(bytes: seq<byte>, length: nat, count: nat, k: nat): (record: seq<byte>)
    requires |bytes| == count * length && k < count
    ensures |record| == length
  {
    RecordInside(length, count, k);
    bytes[k * length..k * length + length]
  }

  lemma RecordOfRest(bytes: seq<byte>, length: nat, count: nat, k: nat)
    requires |bytes| == count * length && 0 < k < count
    ensures |bytes| >= length && |bytes[length..]| == (count - 1) * length
    ensures RecordOf(bytes, length, count, k) == RecordOf(bytes[length..], length, count - 1, k - 1)
  {
    RecordInside(length, count, 0);
    RecordInside(length, count, k);
    assert |bytes[length..]| == (count - 1) * length;
    RecordInside(length, count - 1, k - 1);
    assert k * length == length + (k - 1) * length;
  }

  /** Every sample stands in its own record. */
  predicate AllStand(m: Model, positions: seq<int>, bytes: seq<byte>, samples: seq<Sample>)
    requires |bytes| == |positions| * (5 + m.magnitudeBytes)
  {
    && |samples| == |positions|
    && forall k: nat | k < |samples| ::
         Stands(m, positions[k], RecordOf(bytes, 5 + m.magnitudeBytes, |positions|, k), samples[k])
  }

  lemma DecodedStands(m: Model, position: int, record: seq<byte>, s: Sample)
    requires |record| == RecordBytes(m)
    ensures DecodeSample(m, position, record) == Some(s) <==> Stands(m, position, record, s)
  {
    assert record[..4] == record[0..4];
  }

  lemma AllStandFirst(m: Model, positions: seq<int>, bytes: seq<byte>, samples: seq<Sample>)
    requires |bytes| == |positions| * RecordBytes(m) && positions != [] && samples != []
    ensures |bytes| >= RecordBytes(m) && |bytes[RecordBytes(m)..]| == |positions[1..]| * RecordBytes(m)
    ensures AllStand(m, positions, bytes, samples) <==>
            && Stands(m, positions[0], bytes[..RecordBytes(m)], samples[0])
            && AllStand(m, positions[1..], bytes[RecordBytes(m)..], samples[1..])
  {
    var n, count := RecordBytes(m), |positions|;
    RecordInside(n, count, 0);
    assert |bytes[n..]| == (count - 1) * n;
    assert RecordOf(bytes, n, count, 0) == bytes[..n];
    forall k: nat | 0 < k < count ensures RecordOf(bytes, n, count, k) == RecordOf(bytes[n..], n, count - 1, k - 1) {
      RecordOfRest(bytes, n, count, k);
    }
    if AllStand(m, positions[1..], bytes[n..], samples[1..]) && Stands(m, positions[0], bytes[..n], samples[0]) {
      forall k: nat | k < |samples| ensures Stands(m, positions[k], RecordOf(bytes, n, count, k), samples[k]) {
        if k > 0 {
          assert Stands(m, positions[1..][k - 1], RecordOf(bytes[n..], n, count - 1, k - 1), samples[1..][k - 1]);
        }
      }
    }
    if AllStand(m, positions, bytes, samples) {
      forall k: nat | k < |samples| - 1
        ensures Stands(m, positions[1..][k], RecordOf(bytes[n..], n, count - 1, k), samples[1..][k])
      {
        assert Stands(m, positions[k + 1], RecordOf(bytes, n, count, k + 1), samples[k + 1]);
      }
      assert Stands(m, positions[0], RecordOf(bytes, n, count, 0), samples[0]);
    }
  }

  lemma {:induction false} DecodedAllStand(m: Model, positions: seq<int>, bytes: seq<byte>, samples: seq<Sample>)
    requires |bytes| == |positions| * RecordBytes(m)
    ensures DecodeSamples(m, positions, bytes) == Some(samples) <==> AllStand(m, positions, bytes, samples)
  {
    if positions != [] && samples != [] {
      var n := RecordBytes(m);
      AllStandFirst(m, positions, bytes, samples);
      DecodedStands(m, positions[0], bytes[..n], samples[0]);
      DecodedAllStand(m, positions[1..], bytes[n..], samples[1..]);
      assert samples == [samples[0]] + samples[1..];
    }
  }

  /** An accepted report byte for byte: six numbers, two equal digests, and one record for each sample. */
  lemma AcceptedByteForByte(m: Model, bytes: seq<byte>, r: Report)
    ensures Decode(m, bytes) == Some(r) <==>
            && |bytes| == 152 + |m.samplePositions| * (5 + m.magnitudeBytes)
            && Value(bytes[0..4]) == m.participantCount && Value(bytes[4..8]) == m.optionCount
            && Value(bytes[8..12]) == m.degree && Value(bytes[12..16]) == m.magnitudeBytes
            && Value(bytes[16..20]) == m.commonSampleBits && Value(bytes[20..24]) == |m.samplePositions|
            && r.originalDigest == bytes[24..88] && r.restoredDigest == bytes[88..152]
            && r.originalDigest == r.restoredDigest
            && AllStand(m, m.samplePositions, bytes[152..], r.samples)
  {
    if |bytes| == ReportBytes(m) {
      SixWords(bytes[..24], Dimensions(m));
      assert forall i | 0 <= i < 6 :: bytes[..24][4 * i..4 * i + 4] == bytes[4 * i..4 * i + 4];
      DecodedAllStand(m, m.samplePositions, bytes[152..], r.samples);
    }
  }

  lemma SixWords(bytes: seq<byte>, values: seq<int>)
    requires |bytes| == 24 && |values| == 6
    ensures WordsAre(bytes, values) <==>
            && Value(bytes[0..4]) == values[0] && Value(bytes[4..8]) == values[1] && Value(bytes[8..12]) == values[2]
            && Value(bytes[12..16]) == values[3] && Value(bytes[16..20]) == values[4]
            && Value(bytes[20..24]) == values[5]
  {
    assert WordsAre(bytes, values) ==> forall i | 0 <= i < 6 :: Value(bytes[4 * i..4 * i + 4]) == values[i];
    if WordsAre(bytes, values) {
      assert Value(bytes[4 * 0..4 * 0 + 4]) == values[0] && Value(bytes[4 * 1..4 * 1 + 4]) == values[1];
      assert Value(bytes[4 * 2..4 * 2 + 4]) == values[2] && Value(bytes[4 * 3..4 * 3 + 4]) == values[3];
      assert Value(bytes[4 * 4..4 * 4 + 4]) == values[4] && Value(bytes[4 * 5..4 * 5 + 4]) == values[5];
    }
  }

  // ----- The round trips -----

  lemma {:induction false} WordsRoundTrip(bytes: seq<byte>, values: seq<int>)
    requires |bytes| == 4 * |values| && forall v | v in values :: Word(v)
    ensures WordsAre(bytes, values) <==> bytes == EncodeWords(values)
  {
    if values != [] {
      var first, rest := bytes[..4], bytes[4..];
      WordBytes(first, values[0]);
      WordsRoundTrip(rest, values[1..]);
      assert bytes == first + rest;
      assert forall i | 0 <= i < |values| - 1 :: rest[4 * i..4 * i + 4] == bytes[4 * (i + 1)..4 * (i + 1) + 4];
      if WordsAre(bytes, values) {
        assert Value(bytes[0..4]) == values[0];
        forall i | 0 <= i < |values| - 1 ensures Value(rest[4 * i..4 * i + 4]) == values[1..][i] {
          assert Value(bytes[4 * (i + 1)..4 * (i + 1) + 4]) == values[i + 1];
        }
      }
      if bytes == EncodeWords(values) {
        assert first == LittleEndian(values[0], 4) && rest == EncodeWords(values[1..]);
        forall i | 0 <= i < |values| ensures Value(bytes[4 * i..4 * i + 4]) == values[i] {
          if i > 0 {
            assert Value(rest[4 * (i - 1)..4 * (i - 1) + 4]) == values[1..][i - 1];
            assert rest[4 * (i - 1)..4 * (i - 1) + 4] == bytes[4 * i..4 * i + 4];
          } else {
            assert bytes[0..4] == first;
          }
        }
      }
    }
  }

  /** A record is accepted as a sample exactly when it is that sample's encoding. */
  lemma SampleRoundTrip(m: Model, position: int, record: seq<byte>, s: Sample)
    requires |record| == RecordBytes(m) && Word(position)
    ensures DecodeSample(m, position, record) == Some(s)
       <==> s.position == position && Centered(m, s.value) && record == EncodeSample(m, s)
  {
    var word, sign, tail := record[..4], record[4], record[5..];
    assert record == word + [sign] + tail;
    WordBytes(word, position);
    LittleEndianOfValue(tail);
    if s.position == position && Centered(m, s.value) && record == EncodeSample(m, s) {
      var magnitude := if s.value < 0 then -s.value else s.value;
      assert word == LittleEndian(position, 4) && tail == LittleEndian(magnitude, m.magnitudeBytes);
      ValueOfLittleEndian(magnitude, m.magnitudeBytes);
    }
  }

  lemma {:induction false} SamplesRoundTrip(m: Model, positions: seq<int>, bytes: seq<byte>, samples: seq<Sample>)
    requires |bytes| == |positions| * RecordBytes(m) && forall p | p in positions :: Word(p)
    ensures DecodeSamples(m, positions, bytes) == Some(samples)
       <==> SamplesOk(m, positions, samples) && (forall s | s in samples :: Word(s.position))
            && bytes == EncodeSamples(m, samples)
  {
    if positions != [] && samples != [] {
      var n := RecordBytes(m);
      assert |bytes[n..]| == (|positions| - 1) * n;
      SampleRoundTrip(m, positions[0], bytes[..n], samples[0]);
      SamplesRoundTrip(m, positions[1..], bytes[n..], samples[1..]);
      assert bytes == bytes[..n] + bytes[n..];
      assert samples == [samples[0]] + samples[1..];
    }
  }

  /** A report's sections stand at fixed places. */
  lemma SectionsApart(bytes: seq<byte>, words: seq<byte>, original: seq<byte>, restored: seq<byte>, samples: seq<byte>)
    requires |words| == 24 && |original| == DIGEST && |restored| == DIGEST && |bytes| >= 152
    ensures bytes == words + original + restored + samples
       <==> bytes[..24] == words && bytes[24..88] == original && bytes[88..152] == restored && bytes[152..] == samples
  {
    assert bytes == bytes[..24] + bytes[24..88] + bytes[88..152] + bytes[152..];
  }

  /** The parser accepts exactly the encodings of well-formed reports, and returns what they encode. */
  lemma DecodesExactlyTheEncodings(m: Model, bytes: seq<byte>, r: Report)
    requires Fits(m)
    ensures Decode(m, bytes) == Some(r) <==> ReportOk(m, r) && bytes == Encode(m, r)
  {
    if |bytes| == ReportBytes(m) {
      WordsRoundTrip(bytes[..24], Dimensions(m));
      SamplesRoundTrip(m, m.samplePositions, bytes[152..], r.samples);
      if ReportOk(m, r) {
        assert forall s | s in r.samples :: s.position in m.samplePositions;
        SectionsApart(bytes, EncodeWords(Dimensions(m)), r.originalDigest, r.restoredDigest,
                      EncodeSamples(m, r.samples));
      }
    }
  }

  // ----- The parser's own loop -----

  /** The digits are taken from the most significant end, each shifted in by eight bits. */
  method Magnitude(encoded: seq<byte>) returns (magnitude: nat)
    ensures magnitude == Value(encoded)
  {
    magnitude := 0;
    var index := |encoded|;
    while index > 0
      invariant 0 <= index <= |encoded| && magnitude == Value(encoded[index..])
    {
      index := index - 1;
      assert encoded[index..][1..] == encoded[index + 1..];
      magnitude := magnitude * 256 + encoded[index];
    }
  }

  /** The input and how far it has been read. */
  class Cursor {
    const input: seq<byte>
    var offset: nat

    constructor (input: seq<byte>)
      ensures this.input == input && offset == 0
    {
      this.input, offset := input, 0;
    }

    /** Takes exactly `length` bytes, or nothing when fewer are left. */
    method Take(length: nat) returns (value: Option<seq<byte>>)
      requires offset <= |input|
      modifies this
      ensures offset <= |input|
      ensures if old(offset) + length <= |input|
              then value == Some(input[old(offset)..old(offset) + length]) && offset == old(offset) + length
              else value.None?
    {
      if offset + length > |input| {
        return None;
      }
      value := Some(input[offset..offset + length]);
      offset := offset + length;
    }

    method Integer() returns (value: Option<int>)
      requires offset <= |input|
      modifies this
      ensures offset <= |input|
      ensures if old(offset) + 4 <= |input|
              then value == Some(Value(input[old(offset)..old(offset) + 4])) && offset == old(offset) + 4
              else value.None?
    {
      var taken := Take(4);
      if taken.None? {
        return None;
      }
      var number := Magnitude(taken.value);
      return Some(number);
    }

    method Record(m: Model, position: int) returns (sample: Option<Sample>)
      requires offset + RecordBytes(m) <= |input|
      modifies this
      ensures offset <= |input|
      ensures sample == DecodeSample(m, position, input[old(offset)..old(offset) + RecordBytes(m)])
      ensures sample.Some? ==> offset == old(offset) + RecordBytes(m)
    {
      ghost var record := input[offset..offset + RecordBytes(m)];
      var found := Integer();
      assert found == Some(Value(record[..4])) by {
        assert record[..4] == input[old(offset)..old(offset) + 4];
      }
      if found != Some(position) {
        return None;
      }
      var taken := Take(1);
      var sign := taken.value[0];
      if sign != 0 && sign != 1 {
        return None;
      }
      var encoded := Take(m.magnitudeBytes);
      assert encoded.value == record[5..];
      var magnitude: int := Magnitude(encoded.value);
      if magnitude > m.modulus / 2 || (sign != 0 && magnitude == 0) {
        return None;
      }
      return Some(Sample(position, if sign == 0 then magnitude else -magnitude));
    }
  }

  method ReadDimensions(cursor: Cursor, m: Model) returns (same: bool)
    requires cursor.offset == 0 && |cursor.input| >= 24
    modifies cursor
    ensures same == WordsAre(cursor.input[..24], Dimensions(m))
    ensures cursor.offset == 24
  {
    same := true;
    var expected := Dimensions(m);
    for i := 0 to 6
      invariant cursor.offset == 4 * i
      invariant same == forall k | 0 <= k < i :: Value(cursor.input[..24][4 * k..4 * k + 4]) == expected[k]
    {
      var integer := cursor.Integer();
      assert cursor.input[..24][4 * i..4 * i + 4] == cursor.input[4 * i..4 * i + 4];
      same := same && integer == Some(expected[i]);
    }
  }

  /** The rest of the input holds a whole number of records. */
  predicate Holds(m: Model, bytes: seq<byte>, records: nat) {
    |bytes| == records * RecordBytes(m)
  }

  lemma OneRecord(m: Model, bytes: seq<byte>, records: nat)
    requires Holds(m, bytes, records) && records > 0
    ensures |bytes| >= RecordBytes(m) && Holds(m, bytes[RecordBytes(m)..], records - 1)
  {
    assert records * RecordBytes(m) == (records - 1) * RecordBytes(m) + RecordBytes(m);
  }

  method ReadSamples(cursor: Cursor, m: Model) returns (samples: Option<seq<Sample>>)
    requires cursor.offset <= |cursor.input| && Holds(m, cursor.input[cursor.offset..], |m.samplePositions|)
    modifies cursor
    ensures samples == DecodeSamples(m, m.samplePositions, cursor.input[old(cursor.offset)..])
    ensures samples.Some? ==> cursor.offset == |cursor.input|
  {
    ghost var all := DecodeSamples(m, m.samplePositions, cursor.input[cursor.offset..]);
    ghost var left, positions := cursor.input[cursor.offset..], m.samplePositions;
    var read: seq<Sample> := [];
    AfterNothing(all);
    for i := 0 to |m.samplePositions|
      invariant cursor.offset <= |cursor.input| && left == cursor.input[cursor.offset..]
      invariant positions == m.samplePositions[i..] && Holds(m, left, |positions|)
      invariant all == After(read, DecodeSamples(m, positions, left))
    {
      OneRecord(m, left, |positions|);
      AfterOne(m, positions, left, read);
      assert left[..RecordBytes(m)] == cursor.input[cursor.offset..cursor.offset + RecordBytes(m)];
      assert left[RecordBytes(m)..] == cursor.input[cursor.offset + RecordBytes(m)..];
      var sample := cursor.Record(m, m.samplePositions[i]);
      if sample.None? {
        return None;
      }
      read := read + [sample.value];
      left, positions := left[RecordBytes(m)..], positions[1..];
    }
    assert read + [] == read;
    return Some(read);
  }

  function After(read: seq<Sample>, rest: Option<seq<Sample>>): Option<seq<Sample>> {
    if rest.None? then None else Some(read + rest.value)
  }

  lemma AfterNothing(rest: Option<seq<Sample>>)
    ensures After([], rest) == rest
  {
    if rest.Some? {
      assert [] + rest.value == rest.value;
    }
  }

  lemma AfterOne(m: Model, positions: seq<int>, bytes: seq<byte>, read: seq<Sample>)
    requires positions != [] && |bytes| == |positions| * RecordBytes(m)
    requires |bytes| >= RecordBytes(m) && |bytes[RecordBytes(m)..]| == |positions[1..]| * RecordBytes(m)
    ensures var sample := DecodeSample(m, positions[0], bytes[..RecordBytes(m)]);
            After(read, DecodeSamples(m, positions, bytes))
              == if sample.None? then None
                 else After(read + [sample.value], DecodeSamples(m, positions[1..], bytes[RecordBytes(m)..]))
  {
    var sample, rest := DecodeSample(m, positions[0], bytes[..RecordBytes(m)]),
                        DecodeSamples(m, positions[1..], bytes[RecordBytes(m)..]);
    if sample.Some? && rest.Some? {
      assert read + ([sample.value] + rest.value) == read + [sample.value] + rest.value;
    }
  }

  /** The whole parser: it accepts and returns exactly what the grammar does. */
  method ParseReport(m: Model, bytes: seq<byte>) returns (report: Option<Report>)
    ensures report == Decode(m, bytes)
  {
    if |bytes| != ReportBytes(m) {
      return None;
    }
    var cursor := new Cursor(bytes);
    var same := ReadDimensions(cursor, m);
    if !same {
      return None;
    }
    var original := cursor.Take(DIGEST);
    var restored := cursor.Take(DIGEST);
    if restored != original {
      return None;
    }
    var samples := ReadSamples(cursor, m);
    if samples.None? || cursor.offset != |bytes| {
      return None;
    }
    return Some(Report(original.value, restored.value, samples.value));
  }
}
