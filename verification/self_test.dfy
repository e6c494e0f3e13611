/**
 * The hardware self-tests a TEST command runs. Only the FRAM test touches the
 * store: it saves field 4 (EV_MAX), writes 33, reads it back, passes when the
 * read-back is 33, and writes the saved value back. The temperature/pressure,
 * accelerometer and comparator tests only read sensors and print.
 *
 * The four FRAM transactions take their outcomes from `bus(0)` .. `bus(3)`.
 */
module SelfTest {
  import opened Optional
  import opened MachineInt
  import opened FramLayout
  import opened FramStore

  /** FRAM_TEST_VALUE and FRAM_TEST_INDEX. */
  const FramTestValue: uint8 := 33
  const FramTestIndex: uint8 := 4

  /** hw_tests_t. */
  const TestFram: uint8 := 1
  const TestTempPressure: uint8 := 2
  const TestAccelerometer: uint8 := 3
  const TestComparator: uint8 := 4

  datatype FramTestRun = FramTestRun(passed: bool, mem: Memory)

  /** The bytes a read into a zero-initialised buffer of n bytes leaves
      there. */
  function ReadInto(r: ReadResult, n: nat): (bs: seq<uint8>)
    requires r.ReadOk? ==> |r.bytes| >= n
    ensures |bs| == n
  {
    match r
    case ReadOk(bytes) => bytes[..n]
    case ReadFailed => seq(n, _ => 0)
  }

  // ---------------------------------------------------------------------
  // handle_fram_test_command as written: one-byte locals, two-byte transfers

  /** The three one-byte locals of handle_fram_test_command: the test value,
      the read-back buffer and the saved-value buffer. */
  datatype Local = TestLocal | BackLocal | SavedLocal

  /** Where the compiler puts the three locals: one stack address each. The
      C source does not fix the order, so every placement is a parameter. */
  datatype StackPlacement = StackPlacement(test: int, back: int, saved: int)

  predicate Distinct(p: StackPlacement)
  {
    p.test != p.back && p.test != p.saved && p.back != p.saved
  }

  function AddrOfLocal(p: StackPlacement, l: Local): int
  {
    match l
    case TestLocal => p.test
    case BackLocal => p.back
    case SavedLocal => p.saved
  }

  /** The local at the byte right after l, if one of them is there. */
  function After(p: StackPlacement, l: Local): (r: Option<Local>)
    ensures r.Some? ==> r.value != l && AddrOfLocal(p, r.value) == AddrOfLocal(p, l) + 1
  {
    var next := AddrOfLocal(p, l) + 1;
    if p.test == next then Some(TestLocal)
    else if p.back == next then Some(BackLocal)
    else if p.saved == next then Some(SavedLocal)
    else None
  }

  /** The stack bytes the test reaches: the three locals and, for each local
      not followed by another one, the byte after it. */
  datatype Stack = Stack(test: uint8, back: uint8, saved: uint8, pastTest: uint8, pastBack: uint8, pastSaved: uint8)

  function Get(st: Stack, l: Local): uint8
  {
    match l
    case TestLocal => st.test
    case BackLocal => st.back
    case SavedLocal => st.saved
  }

  function Put(st: Stack, l: Local, v: uint8): (r: Stack)
    ensures Get(r, l) == v
    ensures r.pastTest == st.pastTest && r.pastBack == st.pastBack && r.pastSaved == st.pastSaved
  {
    match l
    case TestLocal => st.(test := v)
    case BackLocal => st.(back := v)
    case SavedLocal => st.(saved := v)
  }

  /** The byte after local l. */
  function Next(p: StackPlacement, st: Stack, l: Local): uint8
  {
    match After(p, l)
    case Some(k) => Get(st, k)
    case None =>
      match l
      case TestLocal => st.pastTest
      case BackLocal => st.pastBack
      case SavedLocal => st.pastSaved
  }

  /** Stores v in the byte after local l. */
  function PutNext(p: StackPlacement, st: Stack, l: Local, v: uint8): (r: Stack)
    requires Distinct(p)
    ensures Next(p, r, l) == v
    ensures Get(r, l) == Get(st, l)
  {
    match After(p, l)
    case Some(k) => Put(st, k, v)
    case None =>
      match l
      case TestLocal => st.(pastTest := v)
      case BackLocal => st.(pastBack := v)
      case SavedLocal => st.(pastSaved := v)
  }

  /** app_fram_read_field(4, &l): a successful transfer moves both bytes of
      field 4, the second into the byte after l; a failed one moves none. */
  function ReadTwo(p: StackPlacement, st: Stack, l: Local, r: ReadResult): (s: Stack)
    requires Distinct(p) && (r.ReadOk? ==> |r.bytes| >= 2)
    ensures r.ReadOk? ==> Get(s, l) == r.bytes[0] && Next(p, s, l) == r.bytes[1]
    ensures r.ReadFailed? ==> s == st
  {
    match r
    case ReadOk(bytes) => PutNext(p, Put(st, l, bytes[0]), l, bytes[1])
    case ReadFailed => st
  }

  /** What app_fram_write_field(4, &l) sends: l and the byte after it. */
  function Sent(p: StackPlacement, st: Stack, l: Local): (data: seq<uint8>)
    ensures data == [Get(st, l), Next(p, st, l)]
  {
    [Get(st, l), Next(p, st, l)]
  }

  /** handle_fram_test_command as written. Its three buffers are single
      bytes, but field 4 is two bytes wide, so every transfer also moves the
      byte after its buffer: the save and the read-back write one byte past
      their locals, and both writes send one. `past*` are the initial stack
      bytes after the locals that no other local follows. The verdict
      compares the read-back with the test value's variable, both one
      byte. */
  function FramTestAsWritten(mem: Memory, bus: nat -> Bus, p: StackPlacement,
                             pastTest: uint8, pastBack: uint8, pastSaved: uint8): (r: FramTestRun)
    requires Holds(mem) && Distinct(p)
    ensures |r.mem| == |mem|
    ensures SameOutside(mem, r.mem, Addr(EvMax), Width(EvMax))
  {
    LookupField(FramTestIndex);
    var st0 := Stack(FramTestValue, 0, 0, pastTest, pastBack, pastSaved);
    var st1 := ReadTwo(p, st0, SavedLocal, ReadField(mem, FramTestIndex, bus(0)));
    var m1 := WriteField(mem, FramTestIndex, Sent(p, st1, TestLocal), bus(1)).mem;
    var st2 := ReadTwo(p, st1, BackLocal, ReadField(m1, FramTestIndex, bus(2)));
    var m2 := WriteField(m1, FramTestIndex, Sent(p, st2, SavedLocal), bus(3)).mem;
    FramTestRun(Get(st2, BackLocal) == Get(st2, TestLocal), m2)
  }

  /** The byte after the test value when the first read has not reached
      it: the saved buffer's low byte if that follows, else the stack byte. */
  function ByteAfterTest(p: StackPlacement, lo: uint8, pastTest: uint8): uint8
  {
    if After(p, TestLocal) == Some(SavedLocal) then lo else pastTest
  }

  /** The test's stack traffic when every transfer succeeds and field 4
      holds [lo, hi]: the read-back differs from the test value only when the
      read-back buffer lies right before the test value; the low byte written
      back is lo unless the read-back's second byte overwrote the saved
      buffer; the high byte is hi unless the saved buffer lies right before
      the read-back buffer, whose 33 is then sent. */
  lemma StackTraffic(p: StackPlacement, pastTest: uint8, pastBack: uint8, pastSaved: uint8, lo: uint8, hi: uint8)
    requires Distinct(p)
    ensures var st1 := ReadTwo(p, Stack(FramTestValue, 0, 0, pastTest, pastBack, pastSaved), SavedLocal, ReadOk([lo, hi]));
            var st2 := ReadTwo(p, st1, BackLocal, ReadOk(Sent(p, st1, TestLocal)));
            var f := Sent(p, st2, SavedLocal);
            && (Get(st2, BackLocal) == Get(st2, TestLocal) <==>
                  After(p, BackLocal) != Some(TestLocal) || ByteAfterTest(p, lo, pastTest) == FramTestValue)
            && f[0] == (if After(p, BackLocal) != Some(SavedLocal) then lo
                        else if After(p, TestLocal) == Some(BackLocal) then 0
                        else pastTest)
            && f[1] == (if After(p, SavedLocal) == Some(BackLocal) then FramTestValue else hi)
  {
    var st0 := Stack(FramTestValue, 0, 0, pastTest, pastBack, pastSaved);
    var st1 := ReadTwo(p, st0, SavedLocal, ReadOk([lo, hi]));
    assert Get(st1, SavedLocal) == lo;
    assert Get(st1, TestLocal) == if After(p, SavedLocal) == Some(TestLocal) then hi else FramTestValue;
    assert Get(st1, BackLocal) == if After(p, SavedLocal) == Some(BackLocal) then hi else 0;
    var w := Sent(p, st1, TestLocal);
    var st2 := ReadTwo(p, st1, BackLocal, ReadOk(w));
    assert Get(st2, BackLocal) == w[0];
  }

  /** When every transfer succeeds, the as-written test passes unless the
      read-back buffer lies right before the test value and the byte after
      the test value is not 33; field 4 keeps its low byte unless the
      read-back buffer lies right before the saved one, and its high byte
      unless the saved buffer lies right before the read-back one. */
  lemma FramTestAsWrittenBytes(mem: Memory, bus: nat -> Bus, p: StackPlacement,
                               pastTest: uint8, pastBack: uint8, pastSaved: uint8)
    requires Holds(mem) && Distinct(p)
    requires forall k :: bus(k) == BusOk
    ensures var r := FramTestAsWritten(mem, bus, p, pastTest, pastBack, pastSaved);
            var a := Addr(EvMax);
            && (r.passed <==>
                  After(p, BackLocal) != Some(TestLocal) || ByteAfterTest(p, mem[a], pastTest) == FramTestValue)
            && r.mem[a] == (if After(p, BackLocal) != Some(SavedLocal) then mem[a]
                            else if After(p, TestLocal) == Some(BackLocal) then 0
                            else pastTest)
            && r.mem[a + 1] == (if After(p, SavedLocal) == Some(BackLocal) then FramTestValue else mem[a + 1])
  {
    var a := Addr(EvMax);
    LookupField(FramTestIndex);
    assert bus(0) == BusOk && bus(1) == BusOk && bus(2) == BusOk && bus(3) == BusOk;
    var lo, hi := mem[a], mem[a + 1];
    assert mem[a..a + 2] == [lo, hi];
    StackTraffic(p, pastTest, pastBack, pastSaved, lo, hi);
    var st0 := Stack(FramTestValue, 0, 0, pastTest, pastBack, pastSaved);
    var st1 := ReadTwo(p, st0, SavedLocal, ReadField(mem, FramTestIndex, bus(0)));
    var w := Sent(p, st1, TestLocal);
    var m1 := WriteField(mem, FramTestIndex, w, bus(1)).mem;
    assert m1[a..a + 2] == w;
    var st2 := ReadTwo(p, st1, BackLocal, ReadField(m1, FramTestIndex, bus(2)));
    var f := Sent(p, st2, SavedLocal);
    var m2 := WriteField(m1, FramTestIndex, f, bus(3)).mem;
    assert m2[a..a + 2] == f;
    assert m2[a] == f[0] && m2[a + 1] == f[1];
  }

  /** With every transfer succeeding and neither the read-back buffer nor
      the saved buffer right after the other, the as-written test leaves the
      store exactly as it found it. */
  lemma FramTestAsWrittenRestores(mem: Memory, bus: nat -> Bus, p: StackPlacement,
                                  pastTest: uint8, pastBack: uint8, pastSaved: uint8)
    requires Holds(mem) && Distinct(p)
    requires forall k :: bus(k) == BusOk
    requires After(p, BackLocal) != Some(SavedLocal) && After(p, SavedLocal) != Some(BackLocal)
    ensures FramTestAsWritten(mem, bus, p, pastTest, pastBack, pastSaved).mem == mem
  {
    FramTestAsWrittenBytes(mem, bus, p, pastTest, pastBack, pastSaved);
    Restored(mem, FramTestAsWritten(mem, bus, p, pastTest, pastBack, pastSaved).mem);
  }

  /** A change confined to field 4 that left both its bytes alone changed
      nothing. */
  lemma Restored(mem: Memory, m: Memory)
    requires SameOutside(mem, m, Addr(EvMax), Width(EvMax))
    requires m[Addr(EvMax)] == mem[Addr(EvMax)] && m[Addr(EvMax) + 1] == mem[Addr(EvMax) + 1]
    ensures m == mem
  {
    var a := Addr(EvMax);
    assert m[a..a + 2] == mem[a..a + 2];
    assert m == m[..a] + m[a..a + 2] + m[a + 2..];
    assert mem == mem[..a] + mem[a..a + 2] + mem[a + 2..];
  }

  /** Where the two example placements put the locals. */
  lemma ExamplePlacements()
    ensures After(StackPlacement(0, 11, 10), SavedLocal) == Some(BackLocal)
    ensures After(StackPlacement(0, 11, 10), BackLocal) == None
    ensures After(StackPlacement(0, 1, 2), TestLocal) == Some(BackLocal)
    ensures After(StackPlacement(0, 1, 2), BackLocal) == Some(SavedLocal)
  {
  }

  /** Field 4 holding 254 (bytes 254, 0) with the read-back buffer right
      after the saved one: the test passes and leaves the field's bytes at
      254, 33, that is 254 + 33 * 256 = 8702. */
  lemma FramTestAsWrittenExample(mem: Memory, bus: nat -> Bus)
    requires Holds(mem) && forall k :: bus(k) == BusOk
    requires mem[Addr(EvMax)] == 254 && mem[Addr(EvMax) + 1] == 0
    ensures var r := FramTestAsWritten(mem, bus, StackPlacement(0, 11, 10), 0, 0, 0);
            r.passed && r.mem[Addr(EvMax)] == 254 && r.mem[Addr(EvMax) + 1] == 33
  {
    ExamplePlacements();
    FramTestAsWrittenBytes(mem, bus, StackPlacement(0, 11, 10), 0, 0, 0);
  }

  /** Field 4 holding 254 with the three locals one after another: the test
      passes and leaves the field at 0, the read-back's second byte having
      overwritten the saved low byte. */
  lemma FramTestAsWrittenClobbersSaved(mem: Memory, bus: nat -> Bus)
    requires Holds(mem) && forall k :: bus(k) == BusOk
    requires mem[Addr(EvMax)] == 254 && mem[Addr(EvMax) + 1] == 0
    ensures var r := FramTestAsWritten(mem, bus, StackPlacement(0, 1, 2), 0, 0, 0);
            r.passed && r.mem[Addr(EvMax)] == 0 && r.mem[Addr(EvMax) + 1] == 0
  {
    ExamplePlacements();
    FramTestAsWrittenBytes(mem, bus, StackPlacement(0, 1, 2), 0, 0, 0);
  }

  /** The read-back buffer right before the test value, which the saved
      buffer follows: every transfer succeeds and field 4 is restored, yet
      the test fails unless the field's low byte is 33. */
  lemma FramTestAsWrittenSpuriousFailure(mem: Memory, bus: nat -> Bus)
    requires Holds(mem) && forall k :: bus(k) == BusOk
    requires mem[Addr(EvMax)] != FramTestValue
    ensures var r := FramTestAsWritten(mem, bus, StackPlacement(1, 0, 2), 0, 0, 0);
            !r.passed && r.mem == mem
  {
    FramTestAsWrittenBytes(mem, bus, StackPlacement(1, 0, 2), 0, 0, 0);
    FramTestAsWrittenRestores(mem, bus, StackPlacement(1, 0, 2), 0, 0, 0);
  }

  /** The FRAM test with two-byte buffers for the two-byte field. */
  function FramTest(mem: Memory, bus: nat -> Bus): (r: FramTestRun)
    requires Holds(mem)
    ensures |r.mem| == |mem|
    ensures SameOutside(mem, r.mem, Addr(EvMax), Width(EvMax))
  {
    var n := Width(EvMax);
    var saved := ReadInto(ReadField(mem, FramTestIndex, bus(0)), n);
    var w1 := WriteField(mem, FramTestIndex, LeBytes(FramTestValue, n), bus(1));
    var back := ReadInto(ReadField(w1.mem, FramTestIndex, bus(2)), n);
    var w2 := WriteField(w1.mem, FramTestIndex, saved, bus(3));
    LookupField(FramTestIndex);
    FramTestRun(LeValue(back) == FramTestValue as nat, w2.mem)
  }

  /** When every transfer succeeds the test passes and the store is exactly
      as before. */
  lemma FramTestRestores(mem: Memory, bus: nat -> Bus)
    requires Holds(mem)
    requires forall k :: bus(k) == BusOk
    ensures FramTest(mem, bus) == FramTestRun(true, mem)
  {
    var lo, hi := Addr(EvMax), Addr(EvMax) + Width(EvMax);
    assert bus(0) == BusOk && bus(1) == BusOk && bus(2) == BusOk && bus(3) == BusOk;
    var test := LeBytes(FramTestValue, Width(EvMax));
    var saved := ReadInto(ReadField(mem, FramTestIndex, bus(0)), Width(EvMax));
    assert saved == mem[lo..hi];
    var m1 := WriteField(mem, FramTestIndex, test, bus(1)).mem;
    var back := ReadInto(ReadField(m1, FramTestIndex, bus(2)), Width(EvMax));
    assert back == test;
    Pow256Values();
    LeRoundTrip(FramTestValue as int, Width(EvMax));
    var m2 := WriteField(m1, FramTestIndex, saved, bus(3)).mem;
    assert m2[lo..hi] == mem[lo..hi];
    LookupField(FramTestIndex);
    assert m2[..lo] == mem[..lo] && m2[hi..] == mem[hi..];
    assert m2 == m2[..lo] + m2[lo..hi] + m2[hi..];
    assert mem == mem[..lo] + mem[lo..hi] + mem[hi..];
  }

  /** The test passes exactly when the read-back transfer succeeds and
      returns 33. */
  lemma FramTestVerdict(mem: Memory, bus: nat -> Bus)
    requires Holds(mem)
    ensures var m1 := WriteField(mem, FramTestIndex, LeBytes(FramTestValue, Width(EvMax)), bus(1)).mem;
            FramTest(mem, bus).passed <==>
              bus(2) == BusOk && LeValue(m1[Addr(EvMax)..Addr(EvMax) + Width(EvMax)]) == 33
  {
    var m1 := WriteField(mem, FramTestIndex, LeBytes(FramTestValue, Width(EvMax)), bus(1)).mem;
    var back := ReadInto(ReadField(m1, FramTestIndex, bus(2)), Width(EvMax));
    assert FramTest(mem, bus).passed == (LeValue(back) == 33);
    if bus(2) == BusOk {
      assert back == m1[Addr(EvMax)..Addr(EvMax) + Width(EvMax)];
    } else {
      assert back == [0, 0];
      LeValueZeros(Width(EvMax));
    }
  }

  /** A failed first read leaves the saved buffer zero, so the final write
      clears field 4. */
  lemma FramTestFailedSaveClears(mem: Memory, bus: nat -> Bus)
    requires Holds(mem)
    requires !bus(0).ready || !bus(0).transferOk
    requires bus(3) == BusOk
    ensures FramTest(mem, bus).mem[Addr(EvMax)..Addr(EvMax) + Width(EvMax)] == [0, 0]
  {
    var zeros := ReadInto(ReadField(mem, FramTestIndex, bus(0)), Width(EvMax));
    assert zeros == [0, 0];
    var m1 := WriteField(mem, FramTestIndex, LeBytes(FramTestValue, Width(EvMax)), bus(1)).mem;
    assert FramTest(mem, bus).mem == WriteField(m1, FramTestIndex, zeros, bus(3)).mem;
  }

  /** The test touches nothing past the configuration layout. */
  lemma FramTestKeepsTail(mem: Memory, bus: nat -> Bus)
    requires Holds(mem)
    ensures FramTest(mem, bus).mem[LayoutSize..] == mem[LayoutSize..]
  {
    TailKept(mem, FramTest(mem, bus).mem, Addr(EvMax), Width(EvMax));
  }

  datatype TestOutcome = FramTestDone(passed: bool) | SensorTestDone(number: uint8) | NoTest

  /** handle_tests_command: test 1 runs the FRAM test; tests 2 .. 4 read a
      sensor and leave the store alone; any other number does nothing. */
  function RunTest(mem: Memory, number: uint8, bus: nat -> Bus): (r: (TestOutcome, Memory))
    requires Holds(mem)
    ensures |r.1| == |mem| && r.1[LayoutSize..] == mem[LayoutSize..]
    ensures number != TestFram ==> r.1 == mem
    ensures r.0.FramTestDone? <==> number == TestFram
    ensures r.0.SensorTestDone? <==> TestTempPressure <= number <= TestComparator
  {
    if number == TestFram then
      var run := FramTest(mem, bus);
      FramTestKeepsTail(mem, bus);
      (FramTestDone(run.passed), run.mem)
    else if TestTempPressure <= number <= TestComparator then (SensorTestDone(number), mem)
    else (NoTest, mem)
  }
}
