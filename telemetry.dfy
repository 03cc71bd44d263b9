/** The telemetry the firmware keeps from the STM32 board's replies
    (src/main.cpp, the globals at lines 56-74 and the update stage of
    readSTM32Data). Sensor values are kept as the raw integers of the reply,
    which are tenths: the firmware divides them by 10.0 into floats. */
module Telemetry {
  import opened CInt
  import opened Decimal
  import opened LineReader
  import opened Tokenizer

  datatype Option<T> = None | Some(value: T)

  const GestureNone: int := 0
  const GestureRight: int := 4

  /** The fifteen telemetry globals, in reply order. */
  datatype Readings = Readings(
    mcuLoad: int, pcbTemp: int, plateTemp: int, resinTemp: int,
    intake1Fan: int, intake2Fan: int, exhaustFan: int,
    gesture: int,
    zStopR: int, yStopR: int, yStopL: int,
    cvr1StopR: int, cvr1StopL: int, cvr2StopR: int, cvr2StopL: int)

  /** The power-on values: every global starts at zero. */
  const Initial: Readings := Readings(0, 0, 0, 0, 0, 0, 0, 0, 0, 0, 0, 0, 0, 0, 0)

  /** The readings in reply order. */
  function Fields(r: Readings): (f: seq<int>)
    ensures |f| == MaxValues
  {
    [r.mcuLoad, r.pcbTemp, r.plateTemp, r.resinTemp,
     r.intake1Fan, r.intake2Fan, r.exhaustFan,
     r.gesture,
     r.zStopR, r.yStopR, r.yStopL, r.cvr1StopR, r.cvr1StopL, r.cvr2StopR, r.cvr2StopL]
  }

  /** A gesture code outside 0..4 is stored as "no gesture". */
  function GestureCode(g: int): (c: int)
    ensures GestureNone <= c <= GestureRight
    ensures c == g || c == GestureNone
    ensures GestureNone <= g <= GestureRight <==> c == g
  {
    if g < GestureNone || g > GestureRight then GestureNone else g
  }

  /** How many values a reply needs before the field at position `i` is
      taken from it: the four temperatures and load need 4, the three fans
      need 7, and each later field needs the values up to its own. */
  function Threshold(i: nat): (t: nat)
    requires i < MaxValues
    ensures i < t <= MaxValues
  {
    if i < 4 then 4 else if i < 7 then 7 else i + 1
  }

  /** The update stage of readSTM32Data: the values of a valid reply are
      stored in stages. */
  function Apply(r: Readings, v: seq<int>): Readings
    requires |v| <= MaxValues
  {
    if |v| < 4 then r
    else StopsStage(GestureStage(FansStage(LoadStage(r, v), v), v), v)
  }

  /** The load and the three temperatures, from a reply of four values or more. */
  function LoadStage(r: Readings, v: seq<int>): Readings
    requires |v| >= 4
  {
    r.(mcuLoad := v[0], pcbTemp := v[1], plateTemp := v[2], resinTemp := v[3])
  }

  /** The three fan readings, from a reply of seven values or more. */
  function FansStage(r: Readings, v: seq<int>): Readings
  {
    if |v| >= 7 then r.(intake1Fan := v[4], intake2Fan := v[5], exhaustFan := v[6]) else r
  }

  /** The gesture, from a reply of eight values or more. */
  function GestureStage(r: Readings, v: seq<int>): Readings
  {
    if |v| >= 8 then r.(gesture := GestureCode(v[7])) else r
  }

  /** The endstop flags, from a reply of nine values or more: each takes the
      value at its own position when the reply reaches it. */
  function StopsStage(r: Readings, v: seq<int>): Readings
    requires |v| <= MaxValues
  {
    if |v| >= 9 then CoverStops(AxisStops(r, v), v) else r
  }

  /** The Z and Y axis flags, values 9 to 11. */
  function AxisStops(r: Readings, v: seq<int>): Readings
    requires |v| >= 9
  {
    var r1 := r.(zStopR := v[8]);
    var r2 := if |v| >= 10 then r1.(yStopR := v[9]) else r1;
    if |v| >= 11 then r2.(yStopL := v[10]) else r2
  }

  /** The flags of the two cover axes, values 12 to 15. */
  function CoverStops(r: Readings, v: seq<int>): Readings
    requires |v| <= MaxValues
  {
    var r1 := if |v| >= 12 then r.(cvr1StopR := v[11]) else r;
    var r2 := if |v| >= 13 then r1.(cvr1StopL := v[12]) else r1;
    var r3 := if |v| >= 14 then r2.(cvr2StopR := v[13]) else r2;
    if |v| >= 15 then r3.(cvr2StopL := v[14]) else r3
  }

  /** Each field is updated exactly when the reply has enough values for
      it, and then takes the value at its own position (the gesture code
      filtered); otherwise it keeps its old value. */
  lemma ApplyPositional(r: Readings, v: seq<int>, i: nat)
    requires |v| <= MaxValues && i < MaxValues
    ensures Fields(Apply(r, v))[i] ==
      if |v| < Threshold(i) then Fields(r)[i]
      else if i == 7 then GestureCode(v[7])
      else v[i]
  {
  }

  /** A reply with fewer than four values changes nothing. */
  lemma ShortReplyChangesNothing(r: Readings, v: seq<int>)
    requires |v| < 4
    ensures Apply(r, v) == r
  {
  }

  /** A full reply determines every reading, whatever was there before. */
  lemma FullReplyOverwritesAll(r: Readings, r': Readings, v: seq<int>)
    requires |v| == MaxValues
    ensures Apply(r, v) == Apply(r', v)
    ensures Fields(Apply(r, v))[..7] == v[..7] && Fields(Apply(r, v))[8..] == v[8..]
  {
  }

  /** The values a read line carries, or None when the firmware rejects it:
      no complete line, an empty line, or a line not starting with `$`. */
  function Reply(read: LineRead): (values: Option<seq<int>>)
    ensures values.Some? <==> read.Line? && read.text != [] && read.text[0] == '$'
    ensures values.Some? ==> values.value == Tokens(read.text[1..]) && |values.value| <= MaxValues
  {
    if read.Line? && read.text != [] && read.text[0] == '$' then Some(Tokens(Payload(read.text)))
    else None
  }

  /** The effect of a reply on the readings. */
  function Received(r: Readings, values: Option<seq<int>>): Readings
    requires values.Some? ==> |values.value| <= MaxValues
  {
    match values
    case None => r
    case Some(v) => Apply(r, v)
  }

  /** The range the stored gesture keeps: the filter lets only the codes
      0..4 through, and the power-on value is 0. */
  predicate GestureInRange(r: Readings)
  {
    GestureNone <= r.gesture <= GestureRight
  }

  /** The power-on readings hold a gesture code in range. */
  lemma InitialGestureInRange()
    ensures GestureInRange(Initial)
  {
  }

  /** Every read keeps the stored gesture in range: a rejected line leaves
      it, and an accepted reply either leaves it or stores a filtered code. */
  lemma ReceivedKeepsGesture(r: Readings, values: Option<seq<int>>)
    requires values.Some? ==> |values.value| <= MaxValues
    requires GestureInRange(r)
    ensures GestureInRange(Received(r, values))
  {
  }

  /** Whether a reply marks the screen for redrawing: it does when it carries
      at least four values. */
  predicate Refreshes(values: Option<seq<int>>)
  {
    values.Some? && |values.value| >= 4
  }

  /** A rejected line leaves the readings alone. */
  lemma RejectedFramesChangeNothing(r: Readings, read: LineRead)
    requires !read.Line? || read.text == [] || read.text[0] != '$'
    ensures Received(r, Reply(read)) == r && !Refreshes(Reply(read))
  {
  }

  /** Readings change only when the screen is marked for redrawing. */
  lemma ChangeImpliesRefresh(r: Readings, read: LineRead)
    requires Received(r, Reply(read)) != r
    ensures Refreshes(Reply(read))
  {
  }

  /** Printing numbers and commas gives printable text. */
  lemma {:induction false} CsvPrintable(ns: seq<nat>)
    ensures AllPrintable(Csv(ns))
  {
    if ns != [] {
      var segs := Numerals(ns);
      JoinPrintable(segs);
    }
  }

  lemma {:induction false} JoinPrintable(segs: seq<seq<char>>)
    requires |segs| >= 1
    requires forall k :: 0 <= k < |segs| ==> AllDigits(segs[k])
    ensures AllPrintable(Join(segs))
    decreases |segs|
  {
    var last := segs[|segs| - 1];
    assert forall j :: 0 <= j < |last| ==> IsDigit(last[j]);
    assert AllPrintable(last) by {
      forall c <- last
        ensures IsPrintable(c)
      {
        var j :| 0 <= j < |last| && last[j] == c;
      }
    }
    if |segs| > 1 {
      var front := segs[..|segs| - 1];
      assert forall k :: 0 <= k < |front| ==> front[k] == segs[k];
      JoinPrintable(front);
      var j0 := Join(front) + [','];
      assert Join(segs) == j0 + last;
      assert forall c <- Join(segs) :: c in j0 || c in last;
    }
  }

  /** A reply of at most 15 comma-separated numbers, each below 2^31, framed
      as `$...` CR LF and short enough for the receive buffer, is accepted
      and yields those numbers; the LF is left in the receive stream. */
  lemma ReplyRoundTrip(ns: seq<nat>, more: string)
    requires |ns| <= MaxValues
    requires forall i :: 0 <= i < |ns| ==> ns[i] < 0x8000_0000
    requires |Csv(ns)| <= 61
    ensures var read := ReadLine("$" + Csv(ns) + "\r\n" + more);
      read == Line("$" + Csv(ns), "\n" + more) && Reply(read) == Some(ns)
  {
    var text := "$" + Csv(ns);
    CsvPrintable(ns);
    assert AllPrintable(text) by {
      assert forall c <- text :: c == '$' || c in Csv(ns);
    }
    CrLfLeavesLineFeed(text, more);
    assert text[1..] == Csv(ns) + [];
    NumeralsRoundTrip(ns, []);
  }

  /** The four-value reply of the original protocol updates the load and
      the three temperatures and nothing else. */
  lemma FourValueReply(r: Readings)
    ensures var read := ReadLine("$123,456,78,901\r\n");
      read == Line("$123,456,78,901", "\n") &&
      Received(r, Reply(read)) == r.(mcuLoad := 123, pcbTemp := 456, plateTemp := 78, resinTemp := 901)
  {
    FourValueLine();
    FourValuePayload();
    var v := [123, 456, 78, 901];
    assert Received(r, Some(v)) == Apply(r, v);
  }

  lemma FourValueLine()
    ensures ReadLine("$123,456,78,901\r\n") == Line("$123,456,78,901", "\n")
  {
    var text := "$123,456,78,901";
    assert AllPrintable(text);
    assert text + "\r\n" + [] == "$123,456,78,901\r\n";
    CrLfLeavesLineFeed(text, []);
  }

  lemma FourValuePayload()
    ensures Reply(Line("$123,456,78,901", "\n")) == Some([123, 456, 78, 901])
  {
    var ns: seq<nat> := [123, 456, 78, 901];
    Csv4();
    assert "$123,456,78,901"[1..] == Csv(ns) + [];
    NumeralsRoundTrip(ns, []);
  }

  lemma Csv1()
    ensures Csv([123]) == "123"
  {
    CsvSingle(123);
  }

  lemma Csv2()
    ensures Csv([123, 456]) == "123,456"
  {
    Csv1();
    CsvSnoc([123], 456);
    assert [123] + [456] == [123, 456];
    assert NatToString(456) == "456";
  }

  lemma Csv3()
    ensures Csv([123, 456, 78]) == "123,456,78"
  {
    Csv2();
    CsvSnoc([123, 456], 78);
    assert [123, 456] + [78] == [123, 456, 78];
    assert NatToString(78) == "78";
  }

  lemma Csv4()
    ensures Csv([123, 456, 78, 901]) == "123,456,78,901"
  {
    Csv3();
    CsvSnoc([123, 456, 78], 901);
    assert [123, 456, 78] + [901] == [123, 456, 78, 901];
    assert NatToString(901) == "901";
  }

  /** Nine values update everything up to the Z axis stop flag and leave
      the six later stop flags alone. */
  lemma NineValueUpdate(r: Readings)
    ensures Received(r, Some([10, 20, 30, 40, 50, 60, 70, 1, 1])) ==
      r.(mcuLoad := 10, pcbTemp := 20, plateTemp := 30, resinTemp := 40,
         intake1Fan := 50, intake2Fan := 60, exhaustFan := 70, gesture := 1, zStopR := 1)
  {
  }
}
