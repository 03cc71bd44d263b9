/** Tokenizer of a telemetry reply (src/main.cpp, readSTM32Data, the parse
    loop): digit runs of the text after `$`, separated by commas, become
    32-bit integers; at most 15 are kept. */
module Tokenizer {
  import opened CInt
  import opened Decimal

  /** Capacity of `int values[15]`. */
  const MaxValues: nat := 15

  /** Characters that close the last number and end the parse. */
  predicate IsStop(c: char) {
    c == '\0' || c == '\r' || c == '\n'
  }

  /** The longest prefix of `s` without a stop character. */
  function StopPrefix(s: seq<char>): (r: seq<char>)
    ensures |r| <= |s| && r == s[..|r|]
    ensures forall j :: 0 <= j < |r| ==> !IsStop(r[j])
    ensures |r| < |s| ==> IsStop(s[|r|])
  {
    if s == [] || IsStop(s[0]) then [] else [s[0]] + StopPrefix(s[1..])
  }

  /** `s` split at its commas: the pieces between consecutive commas, in order. */
  function Segments(s: seq<char>): (segs: seq<seq<char>>)
    ensures |segs| >= 1
  {
    if s == [] then [[]]
    else
      var segs := Segments(s[..|s| - 1]);
      var c := s[|s| - 1];
      if c == ',' then segs + [[]]
      else segs[..|segs| - 1] + [segs[|segs| - 1] + [c]]
  }

  /** The pieces joined by commas. */
  function Join(segs: seq<seq<char>>): seq<char>
    requires |segs| >= 1
  {
    if |segs| == 1 then segs[0]
    else Join(segs[..|segs| - 1]) + [','] + segs[|segs| - 1]
  }

  lemma SegmentsSnoc(s: seq<char>, c: char)
    ensures Segments(s + [c]) ==
      var segs := Segments(s);
      if c == ',' then segs + [[]] else segs[..|segs| - 1] + [segs[|segs| - 1] + [c]]
  {
    assert (s + [c])[..|s|] == s;
  }

  /** Splitting and joining again gives back the text. */
  lemma {:induction false} JoinSegments(s: seq<char>)
    ensures Join(Segments(s)) == s
    decreases |s|
  {
    if s != [] {
      var s', c := s[..|s| - 1], s[|s| - 1];
      assert s == s' + [c];
      SegmentsSnoc(s', c);
      JoinSegments(s');
      var segs := Segments(s');
      if c != ',' && |segs| > 1 {
        var front := segs[..|segs| - 1];
        var segs2 := front + [segs[|segs| - 1] + [c]];
        assert segs2[..|segs2| - 1] == front;
      }
    }
  }

  /** Appending comma-free text extends the last segment. */
  lemma {:induction false} SegmentsAppendPlain(s: seq<char>, b: seq<char>)
    requires ',' !in b
    ensures Segments(s + b) ==
      var segs := Segments(s);
      segs[..|segs| - 1] + [segs[|segs| - 1] + b]
    decreases |b|
  {
    var segs := Segments(s);
    if b == [] {
      assert s + b == s;
      assert segs[|segs| - 1] + b == segs[|segs| - 1];
      assert segs == segs[..|segs| - 1] + [segs[|segs| - 1]];
    } else {
      var b', c := b[..|b| - 1], b[|b| - 1];
      assert b == b' + [c];
      assert s + b == (s + b') + [c];
      assert c in b;
      assert forall x <- b' :: x in b;
      SegmentsAppendPlain(s, b');
      SegmentsSnoc(s + b', c);
      var front, last := segs[..|segs| - 1], segs[|segs| - 1];
      SnocParts(front, last + b');
      assert (last + b') + [c] == last + b;
    }
  }

  /** Joining comma-free pieces and splitting gives back the pieces. */
  lemma {:induction false} SegmentsJoin(segs: seq<seq<char>>)
    requires |segs| >= 1 && forall seg <- segs :: ',' !in seg
    ensures Segments(Join(segs)) == segs
    decreases |segs|
  {
    if |segs| == 1 {
      SegmentsAppendPlain([], segs[0]);
      assert [] + segs[0] == segs[0];
      assert segs == [segs[0]];
    } else {
      var front, last := segs[..|segs| - 1], segs[|segs| - 1];
      assert forall seg <- front :: seg in segs;
      assert last in segs;
      var j := Join(front);
      assert Join(segs) == (j + [',']) + last;
      SegmentsJoin(front);
      SegmentsSnoc(j, ',');
      assert Segments(j + [',']) == front + [[]];
      SegmentsAppendPlain(j + [','], last);
      var t := front + [[]];
      assert t[..|t| - 1] == front && t[|t| - 1] == [];
      assert [] + last == last;
      assert segs == front + [last];
    }
  }

  /** The token a segment contributes: its digits read as a 32-bit number,
      or nothing when it has no digit. */
  function TokenOf(seg: seq<char>): seq<int>
  {
    var d := Digits(seg);
    if d == [] then [] else [Int32(DecimalValue(d))]
  }

  /** The tokens of the segments, in order. */
  function TokenValues(segs: seq<seq<char>>): seq<int>
  {
    if segs == [] then []
    else TokenValues(segs[..|segs| - 1]) + TokenOf(segs[|segs| - 1])
  }

  lemma TokenValuesSnoc(segs: seq<seq<char>>, seg: seq<char>)
    ensures TokenValues(segs + [seg]) == TokenValues(segs) + TokenOf(seg)
  {
    assert (segs + [seg])[..|segs|] == segs;
  }

  /** The first `n` elements of `s`, or all of them when there are fewer. */
  function Take(s: seq<int>, n: nat): (r: seq<int>)
    ensures |r| <= n
  {
    if |s| <= n then s else s[..n]
  }

  /** The values a reply payload (the text after `$`) yields: up to 15 tokens,
      one per comma-separated segment that holds a digit, read up to the
      first CR, LF or NUL. */
  function Tokens(payload: seq<char>): (r: seq<int>)
    ensures |r| <= MaxValues
  {
    Take(TokenValues(Segments(StopPrefix(payload))), MaxValues)
  }

  /** The text after the leading `$` of a line. */
  function Payload(line: seq<char>): seq<char>
  {
    if line == [] then [] else line[1..]
  }

  /** One digit step of the accumulator `numValue = numValue * 10 + digit`. */
  lemma AccumulateDigit(d: seq<char>, c: char)
    requires AllDigits(d) && IsDigit(c)
    ensures AllDigits(d + [c])
    ensures Int32(Int32(DecimalValue(d)) * 10 + DigitValue(c)) == Int32(DecimalValue(d + [c]))
  {
    DecimalValueSnoc(d, c);
    Int32MulAdd(DecimalValue(d), DigitValue(c));
  }

  lemma TakeSnoc(a: seq<int>, t: seq<int>, n: nat)
    requires |t| <= 1
    ensures Take(a + t, n) == if |a| >= n then Take(a, n) else a + t
  {
    if |a| >= n {
      assert (a + t)[..n] == a[..n];
    }
  }

  /** A non-empty sequence is its front followed by its last element. */
  lemma LastSplit<T>(s: seq<T>)
    requires |s| >= 1
    ensures s == s[..|s| - 1] + [s[|s| - 1]]
  {
  }

  lemma SnocParts<T>(a: seq<T>, x: T)
    ensures (a + [x])[..|a|] == a && (a + [x])[|a|] == x
  {
  }

  /** The variables of the parse loop: the values stored so far, the number
      being accumulated and whether it has seen a digit. */
  datatype Scan = Scan(stored: seq<int>, numValue: int, inNumber: bool)

  /** A comma or the end of the text: the pending number is stored while
      there is room. */
  function Flush(st: Scan): Scan
  {
    if st.inNumber && |st.stored| < MaxValues then Scan(st.stored + [st.numValue], 0, false)
    else st
  }

  /** The effect of one payload character on the loop variables. */
  ghost function Step(st: Scan, c: char): Scan
  {
    if IsDigit(c) then Scan(st.stored, Int32(st.numValue * 10 + DigitValue(c)), true)
    else if c == ',' || IsStop(c) then Flush(st)
    else st
  }

  /** The loop variables after the characters of `s`. */
  ghost function ScanOf(s: seq<char>): Scan
  {
    if s == [] then Scan([], 0, false) else Step(ScanOf(s[..|s| - 1]), s[|s| - 1])
  }

  lemma ScanOfSnoc(s: seq<char>, c: char)
    ensures ScanOf(s + [c]) == Step(ScanOf(s), c)
  {
    assert (s + [c])[..|s|] == s;
  }

  /** What the loop variables mean: the stored values are the tokens of the
      closed segments (at most 15), and while there is room the accumulator
      holds the open segment's digits. */
  ghost predicate Holds(closed: seq<seq<char>>, open: seq<char>, st: Scan)
  {
    st.stored == Take(TokenValues(closed), MaxValues) &&
    (|st.stored| < MaxValues ==>
      st.numValue == Int32(DecimalValue(Digits(open))) && st.inNumber == (Digits(open) != []))
  }

  ghost predicate Meaning(s: seq<char>, st: Scan)
  {
    var segs := Segments(s);
    Holds(segs[..|segs| - 1], segs[|segs| - 1], st)
  }

  /** Flushing at the end completes the tokens of all segments. */
  lemma FlushHolds(closed: seq<seq<char>>, open: seq<char>, st: Scan)
    requires Holds(closed, open, st)
    ensures Flush(st).stored == Take(TokenValues(closed + [open]), MaxValues)
  {
    TokenValuesSnoc(closed, open);
    var a := TokenValues(closed);
    TakeSnoc(a, TokenOf(open), MaxValues);
    if |a| >= MaxValues {
      assert |st.stored| == MaxValues;
      assert Flush(st) == st;
    } else {
      assert st.stored == a;
      if Digits(open) == [] {
        assert TokenOf(open) == [];
        assert a + [] == a;
      } else {
        assert TokenOf(open) == [st.numValue];
      }
    }
  }

  lemma HoldsDigit(closed: seq<seq<char>>, open: seq<char>, st: Scan, c: char)
    requires Holds(closed, open, st) && IsDigit(c)
    ensures Holds(closed, open + [c], Step(st, c))
  {
    DigitsSnoc(open, c);
    if |st.stored| < MaxValues {
      AccumulateDigit(Digits(open), c);
    }
  }

  lemma HoldsOther(closed: seq<seq<char>>, open: seq<char>, st: Scan, c: char)
    requires Holds(closed, open, st) && !IsDigit(c) && c != ',' && !IsStop(c)
    ensures Holds(closed, open + [c], Step(st, c))
  {
    DigitsSnoc(open, c);
    assert Digits(open) + [] == Digits(open);
  }

  lemma HoldsComma(closed: seq<seq<char>>, open: seq<char>, st: Scan)
    requires Holds(closed, open, st)
    ensures Holds(closed + [open], [], Step(st, ','))
  {
    FlushHolds(closed, open, st);
  }

  /** A character that is no comma extends the open segment. */
  lemma SegmentsPlain(s: seq<char>, c: char)
    requires c != ','
    ensures var segs, segs' := Segments(s), Segments(s + [c]);
      segs'[..|segs'| - 1] == segs[..|segs| - 1] && segs'[|segs'| - 1] == segs[|segs| - 1] + [c]
  {
    SegmentsSnoc(s, c);
    var segs := Segments(s);
    SnocParts(segs[..|segs| - 1], segs[|segs| - 1] + [c]);
  }

  /** A comma closes the open segment and opens an empty one. */
  lemma SegmentsComma(s: seq<char>)
    ensures var segs, segs' := Segments(s), Segments(s + [',']);
      segs'[..|segs'| - 1] == segs && segs'[|segs'| - 1] == []
  {
    SegmentsSnoc(s, ',');
    SnocParts(Segments(s), []);
  }

  /** The loop variables after a stop-free text have their meaning. */
  lemma {:induction false} ScanMeaning(s: seq<char>)
    requires forall j :: 0 <= j < |s| ==> !IsStop(s[j])
    ensures Meaning(s, ScanOf(s))
    decreases |s|
  {
    if s == [] {
      assert Segments(s) == [[]];
    } else {
      var s', c := s[..|s| - 1], s[|s| - 1];
      assert s == s' + [c];
      ScanMeaning(s');
      assert ScanOf(s) == Step(ScanOf(s'), c);
      var segs := Segments(s');
      var closed, open := segs[..|segs| - 1], segs[|segs| - 1];
      if IsDigit(c) {
        SegmentsPlain(s', c);
        HoldsDigit(closed, open, ScanOf(s'), c);
      } else if c == ',' {
        SegmentsComma(s');
        LastSplit(segs);
        HoldsComma(closed, open, ScanOf(s'));
      } else {
        assert !IsStop(s[|s| - 1]);
        SegmentsPlain(s', c);
        HoldsOther(closed, open, ScanOf(s'), c);
      }
    }
  }

  /** The scan of the payload up to its first stop, flushed, gives its tokens. */
  lemma ScanTokens(pay: seq<char>)
    ensures Flush(ScanOf(StopPrefix(pay))).stored == Tokens(pay)
  {
    var s := StopPrefix(pay);
    ScanMeaning(s);
    var segs := Segments(s);
    LastSplit(segs);
    FlushHolds(segs[..|segs| - 1], segs[|segs| - 1], ScanOf(s));
  }

  /** One more character of the payload. */
  lemma ScanStep(pay: seq<char>, k: nat)
    requires k < |pay|
    ensures ScanOf(pay[..k + 1]) == Step(ScanOf(pay[..k]), pay[k])
  {
    assert pay[..k + 1] == pay[..k] + [pay[k]];
    ScanOfSnoc(pay[..k], pay[k]);
  }

  /** The text before the first stop character is that prefix. */
  lemma StopPrefixAt(s: seq<char>, k: nat)
    requires k <= |s|
    requires forall j :: 0 <= j < k ==> !IsStop(s[j])
    requires k < |s| ==> IsStop(s[k])
    ensures StopPrefix(s) == s[..k]
  {
  }

  /** A comma or a stop character: the pending number goes into the next
      free slot of `values`, if there is one. */
  method FlushValue(values: array<int>, valueIndex: nat, numValue: int, inNumber: bool)
    returns (vi: nat, num: int, inn: bool)
    requires values.Length == MaxValues && valueIndex <= MaxValues
    modifies values
    ensures vi <= MaxValues
    ensures Scan(values[..vi], num, inn) == Flush(Scan(old(values[..valueIndex]), numValue, inNumber))
  {
    vi, num, inn := valueIndex, numValue, inNumber;
    if inNumber && valueIndex < MaxValues {
      values[valueIndex] := numValue;
      vi := valueIndex + 1;
      num := 0;
      inn := false;
    }
  }

  /** The parse loop of readSTM32Data, over `int values[15]`. The firmware
      runs it only on a non-empty line. */
  method ParseValues(line: seq<char>) returns (tokens: seq<int>)
    requires line != []
    ensures tokens == Tokens(line[1..])
  {
    var values := new int[MaxValues](_ => 0);
    var valueIndex := 0;
    var numValue := 0;
    var inNumber := false;
    var n := |line|;
    ghost var pay := line[1..];
    var i := 1;
    while i <= n
      invariant 1 <= i <= n
      invariant forall j :: 0 <= j < i - 1 ==> !IsStop(pay[j])
      invariant 0 <= valueIndex <= MaxValues
      invariant Scan(values[..valueIndex], numValue, inNumber) == ScanOf(pay[..i - 1])
    {
      var c := if i < n then line[i] else '\0';
      if IsDigit(c) {
        numValue := Int32(numValue * 10 + DigitValue(c));
        inNumber := true;
      } else if c == ',' || IsStop(c) {
        valueIndex, numValue, inNumber := FlushValue(values, valueIndex, numValue, inNumber);
        if IsStop(c) {
          StopPrefixAt(pay, i - 1);
          ScanTokens(pay);
          // The flush that follows the loop in the firmware finds nothing
          // pending: the loop always ends on the NUL past the end of the line.
          assert !(inNumber && valueIndex < MaxValues);
          tokens := values[..valueIndex];
          return;
        }
      }
      assert c == pay[i - 1];
      ScanStep(pay, i - 1);
      i := i + 1;
    }
    // The loop always leaves through the stop at i == n.
    assert false;
  }

  /** The decimal numerals of `ns`, one segment each. */
  function Numerals(ns: seq<nat>): (segs: seq<seq<char>>)
    ensures |segs| == |ns|
    ensures forall i :: 0 <= i < |ns| ==> AllDigits(segs[i]) && DecimalValue(segs[i]) == ns[i]
  {
    seq(|ns|, i requires 0 <= i < |ns| => NatToStringOf(ns[i]))
  }

  /** NatToString together with its round trip. */
  function NatToStringOf(n: nat): (s: string)
    ensures AllDigits(s) && |s| >= 1 && DecimalValue(s) == n
  {
    NatToStringRoundTrip(n);
    NatToString(n)
  }

  /** The numbers written in decimal and separated by commas, the way the
      sending side of the serial link writes its fields. */
  function Csv(ns: seq<nat>): string
  {
    if ns == [] then [] else Join(Numerals(ns))
  }

  lemma {:induction false} JoinNoStop(segs: seq<seq<char>>)
    requires |segs| >= 1
    requires forall k :: 0 <= k < |segs| ==> AllDigits(segs[k])
    ensures forall j :: 0 <= j < |Join(segs)| ==> !IsStop(Join(segs)[j])
    decreases |segs|
  {
    if |segs| > 1 {
      var front := segs[..|segs| - 1];
      assert forall k :: 0 <= k < |front| ==> front[k] == segs[k];
      JoinNoStop(front);
      var last := segs[|segs| - 1];
      var j0 := Join(front) + [','];
      assert forall j :: 0 <= j < |j0| ==> !IsStop(j0[j]);
      assert forall j :: 0 <= j < |last| ==> IsDigit(last[j]);
      assert Join(segs) == j0 + last;
    }
  }

  lemma {:induction false} TokenValuesOfNumerals(ns: seq<nat>)
    requires forall i :: 0 <= i < |ns| ==> ns[i] < 0x8000_0000
    ensures TokenValues(Numerals(ns)) == ns
    decreases |ns|
  {
    if ns != [] {
      var ns', n := ns[..|ns| - 1], ns[|ns| - 1];
      var segs := Numerals(ns);
      assert Numerals(ns') == segs[..|segs| - 1];
      TokenValuesOfNumerals(ns');
      var seg := segs[|segs| - 1];
      DigitsOfDigitString(seg);
      assert DecimalValue(seg) == n;
      assert Int32(n) == n;
      assert TokenOf(seg) == [n];
      LastSplit(ns);
      assert TokenValues(segs) == ns' + [n];
    }
  }

  /** A reply whose payload is comma-separated numerals, closed by a stop
      character or by the end of the text, yields those numbers, the first
      15 of them, when each fits in a 32-bit `int`. */
  lemma NumeralsRoundTrip(ns: seq<nat>, tail: string)
    requires forall i :: 0 <= i < |ns| ==> ns[i] < 0x8000_0000
    requires tail == [] || IsStop(tail[0])
    ensures Tokens(Csv(ns) + tail) == Take(ns, MaxValues)
  {
    var text := Csv(ns);
    if ns == [] {
      assert text + tail == tail;
      StopPrefixAt(tail, 0);
      assert Segments([]) == [] + [[]];
      TokenValuesSnoc([], []);
    } else {
      var segs := Numerals(ns);
      JoinNoStop(segs);
      assert (text + tail)[..|text|] == text;
      StopPrefixAt(text + tail, |text|);
      forall seg | seg in segs
        ensures ',' !in seg
      {
        var k :| 0 <= k < |segs| && segs[k] == seg;
        assert AllDigits(segs[k]);
      }
      SegmentsJoin(segs);
      TokenValuesOfNumerals(ns);
    }
  }

  /** A decimal point is neither a digit nor a comma: "1.5" reads as 15. */
  lemma DecimalPointIsSkipped()
    ensures Tokens("1.5\r") == [15]
  {
    StopPrefixAt("1.5\r", 3);
    assert "1.5\r"[..3] == "1.5";
    assert "1.5" == "1." + ['5'] && "1." == "1" + ['.'] && "1" == [] + ['1'];
    ScanOfSnoc([], '1');
    assert ScanOf("1") == Scan([], 1, true);
    ScanOfSnoc("1", '.');
    assert ScanOf("1.") == Scan([], 1, true);
    ScanOfSnoc("1.", '5');
    assert ScanOf("1.5") == Scan([], 15, true);
    ScanTokens("1.5\r");
    assert Flush(Scan([], 15, true)).stored == [15];
  }

  lemma CsvSingle(n: nat)
    ensures Csv([n]) == NatToString(n)
  {
    assert Numerals([n])[0] == NatToString(n);
  }

  /** One more number: a comma and its numeral. */
  lemma CsvSnoc(ns: seq<nat>, n: nat)
    requires ns != []
    ensures Csv(ns + [n]) == Csv(ns) + "," + NatToString(n)
  {
    var segs, segs' := Numerals(ns), Numerals(ns + [n]);
    var front := segs'[..|segs'| - 1];
    assert |front| == |segs|;
    assert forall i :: 0 <= i < |segs| ==> front[i] == segs[i];
    assert front == segs;
    assert segs'[|segs'| - 1] == NatToString(n);
  }
}
