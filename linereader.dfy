/** Line assembly of a telemetry reply (src/main.cpp, readSTM32Data, the read
    loop): characters are taken from the receive stream until CR or LF,
    keeping only printable ones, into a 64-byte buffer. The read timeout is the
    end of the input sequence. */
module LineReader {
  /** Size of the receive buffer `char buffer[64]`. */
  const BufferSize: nat := 64
  /** The read loop runs only while fewer than this many characters are stored. */
  const ReadLimit: nat := 63

  predicate IsTerminator(c: char) {
    c == '\r' || c == '\n'
  }

  /** ASCII 32..126: the characters the read loop stores. */
  predicate IsPrintable(c: char) {
    ' ' <= c <= '~'
  }

  predicate AllPrintable(s: seq<char>) {
    forall c <- s :: IsPrintable(c)
  }

  /** The printable characters of `s`, in order. */
  function Printables(s: seq<char>): (r: seq<char>)
    ensures |r| <= |s| && AllPrintable(r)
  {
    if s == [] then []
    else (if IsPrintable(s[0]) then [s[0]] else []) + Printables(s[1..])
  }

  lemma {:induction false} PrintablesAppend(a: seq<char>, b: seq<char>)
    ensures Printables(a + b) == Printables(a) + Printables(b)
    decreases |a|
  {
    if a == [] {
      assert a + b == b;
    } else {
      assert (a + b)[1..] == a[1..] + b;
      PrintablesAppend(a[1..], b);
    }
  }

  /** One more character of `s` adds itself when printable, nothing otherwise. */
  lemma PrintablesSnoc(s: seq<char>, pos: nat)
    requires pos < |s|
    ensures Printables(s[..pos + 1]) == Printables(s[..pos]) + (if IsPrintable(s[pos]) then [s[pos]] else [])
  {
    assert s[..pos + 1] == s[..pos] + [s[pos]];
    PrintablesAppend(s[..pos], [s[pos]]);
  }

  lemma {:induction false} PrintablesOfPrintable(s: seq<char>)
    requires AllPrintable(s)
    ensures Printables(s) == s
    decreases |s|
  {
    if s != [] {
      PrintablesOfPrintable(s[1..]);
    }
  }

  /** Index of the first CR or LF in `s`, or |s| when there is none. */
  function FirstTerminator(s: seq<char>): (t: nat)
    ensures t <= |s|
    ensures t < |s| ==> IsTerminator(s[t])
    ensures forall i :: 0 <= i < t ==> !IsTerminator(s[i])
  {
    if s == [] then 0
    else if IsTerminator(s[0]) then 0
    else 1 + FirstTerminator(s[1..])
  }

  /** The length of the shortest prefix of `s` holding `k` printable characters. */
  function AfterNth(s: seq<char>, k: nat): (n: nat)
    requires 1 <= k <= |Printables(s)|
    ensures k <= n <= |s|
    ensures |Printables(s[..n])| == k && IsPrintable(s[n - 1])
    decreases |s|
  {
    assert s == [s[0]] + s[1..];
    PrintablesAppend([s[0]], s[1..]);
    if IsPrintable(s[0]) && k == 1 then
      assert s[..1] == [s[0]];
      1
    else
      var m := AfterNth(s[1..], if IsPrintable(s[0]) then k - 1 else k);
      assert s[..m + 1] == [s[0]] + s[1..][..m];
      PrintablesAppend([s[0]], s[1..][..m]);
      m + 1
  }

  /** The outcome of one read: a completed line and the characters left in
      the receive buffer after its terminator, or no line. */
  datatype LineRead = Line(text: seq<char>, rest: seq<char>) | NoLine(rest: seq<char>)

  /** What the read loop yields from `input`. Let `t` be the position of the
      first CR or LF and `p` the printable characters before it. When `p` has
      63 or more characters the loop stops right after the 63rd and yields no
      line; otherwise a terminator gives the line `p`, and its absence (the
      timeout) gives no line with the whole input consumed. */
  function ReadLine(input: seq<char>): (r: LineRead)
    ensures r.Line? <==>
      FirstTerminator(input) < |input| && |Printables(input[..FirstTerminator(input)])| < ReadLimit
    ensures r.Line? ==> AllPrintable(r.text) && |r.text| <= ReadLimit - 1
    ensures r.Line? ==> |r.rest| < |input|
    ensures |r.rest| <= |input| && r.rest == input[|input| - |r.rest|..]
  {
    var t := FirstTerminator(input);
    var p := Printables(input[..t]);
    if |p| >= ReadLimit then
      NoLine(input[AfterNth(input[..t], ReadLimit)..])
    else if t < |input| then
      Line(p, input[t + 1..])
    else
      NoLine([])
  }

  /** Counting printables is monotone along prefixes. */
  lemma PrintablesPrefixMonotone(s: seq<char>, a: nat, b: nat)
    requires a <= b <= |s|
    ensures |Printables(s[..a])| <= |Printables(s[..b])|
  {
    assert s[..b] == s[..a] + s[a..b];
    PrintablesAppend(s[..a], s[a..b]);
  }

  /** At most one prefix ends in the `k`-th printable character. */
  lemma CutUnique(s: seq<char>, a: nat, b: nat, k: nat)
    requires 1 <= a <= |s| && 1 <= b <= |s|
    requires |Printables(s[..a])| == k && IsPrintable(s[a - 1])
    requires |Printables(s[..b])| == k && IsPrintable(s[b - 1])
    ensures a == b
  {
    if a < b {
      LongerPrefixCountsMore(s, a, b);
    } else if b < a {
      LongerPrefixCountsMore(s, b, a);
    }
  }

  /** A longer prefix that ends in a printable character holds more printables. */
  lemma LongerPrefixCountsMore(s: seq<char>, a: nat, b: nat)
    requires a < b <= |s| && IsPrintable(s[b - 1])
    ensures |Printables(s[..a])| < |Printables(s[..b])|
  {
    PrintablesSnoc(s, b - 1);
    PrintablesPrefixMonotone(s, a, b - 1);
  }

  lemma {:induction false} FirstTerminatorAppend(a: seq<char>, b: seq<char>)
    requires forall c <- a :: !IsTerminator(c)
    ensures FirstTerminator(a + b) == |a| + FirstTerminator(b)
    decreases |a|
  {
    if a != [] {
      assert (a + b)[0] == a[0] && (a + b)[1..] == a[1..] + b;
      FirstTerminatorAppend(a[1..], b);
    } else {
      assert a + b == b;
    }
  }

  /** A reply ending in CR LF yields its line and leaves the LF in the receive
      buffer; the next read then ends at that LF with an empty line. */
  lemma CrLfLeavesLineFeed(body: seq<char>, more: seq<char>)
    requires AllPrintable(body) && |body| < ReadLimit
    ensures ReadLine(body + "\r\n" + more) == Line(body, "\n" + more)
    ensures ReadLine("\n" + more) == Line([], more)
  {
    CrLfLine(body, more);
    LineFeedLine(more);
  }

  lemma CrLfLine(body: seq<char>, more: seq<char>)
    requires AllPrintable(body) && |body| < ReadLimit
    ensures ReadLine(body + "\r\n" + more) == Line(body, "\n" + more)
  {
    var tail := "\r\n" + more;
    assert body + "\r\n" + more == body + tail;
    TerminatedLine(body, tail);
    assert tail[1..] == "\n" + more;
  }

  lemma LineFeedLine(more: seq<char>)
    ensures ReadLine("\n" + more) == Line([], more)
  {
    var lf := "\n" + more;
    assert [] + lf == lf;
    TerminatedLine([], lf);
  }

  /** A printable body that fits the buffer, followed by a terminator, is read
      as one line; reading resumes just after the terminator. */
  lemma TerminatedLine(body: seq<char>, tail: seq<char>)
    requires AllPrintable(body) && |body| < ReadLimit
    requires tail != [] && IsTerminator(tail[0])
    ensures ReadLine(body + tail) == Line(body, tail[1..])
  {
    var input := body + tail;
    assert input[..|body|] == body;
    assert forall i :: 0 <= i < |body| ==> !IsTerminator(input[i]) by {
      forall i | 0 <= i < |body|
        ensures !IsTerminator(input[i])
      {
        assert input[i] == body[i] && body[i] in body;
      }
    }
    PrintablesOfPrintable(body);
    ReadLineAtTerminator(input, |body|);
    assert input[|body| + 1..] == tail[1..];
  }

  /** Extending a prefix that already holds `k` printables leaves the cut point. */
  lemma AfterNthPrefix(s: seq<char>, j: nat, k: nat)
    requires j <= |s| && 1 <= k <= |Printables(s[..j])|
    ensures k <= |Printables(s)| && AfterNth(s[..j], k) == AfterNth(s, k)
  {
    PrintablesPrefixMonotone(s, j, |s|);
    assert s[..|s|] == s;
    var a := AfterNth(s[..j], k);
    assert s[..j][..a] == s[..a];
    CutUnique(s, a, AfterNth(s, k), k);
  }

  /** A prefix ending in its `k`-th printable character is cut exactly there. */
  lemma AfterNthAtEnd(s: seq<char>, k: nat)
    requires 1 <= k && |s| >= 1 && IsPrintable(s[|s| - 1])
    requires |Printables(s[..|s| - 1])| == k - 1
    ensures |Printables(s)| == k && AfterNth(s, k) == |s|
  {
    PrintablesSnoc(s, |s| - 1);
    assert s[..|s|] == s;
    CutUnique(s, AfterNth(s, k), |s|, k);
  }

  /** The three ways a read ends, in terms of the characters it consumed. */
  lemma ReadLineAtTerminator(input: seq<char>, t: nat)
    requires t < |input| && IsTerminator(input[t])
    requires t <= FirstTerminator(input)
    requires |Printables(input[..t])| < ReadLimit
    ensures ReadLine(input) == Line(Printables(input[..t]), input[t + 1..])
  {
    assert FirstTerminator(input) == t;
  }

  lemma ReadLineAtLimit(input: seq<char>, pos: nat)
    requires 1 <= pos <= |input| && IsPrintable(input[pos - 1])
    requires pos <= FirstTerminator(input)
    requires |Printables(input[..pos - 1])| == ReadLimit - 1
    ensures ReadLine(input) == NoLine(input[pos..])
  {
    var t := FirstTerminator(input);
    assert pos <= t;
    assert input[..pos][..pos - 1] == input[..pos - 1];
    AfterNthAtEnd(input[..pos], ReadLimit);
    assert input[..t][..pos] == input[..pos];
    AfterNthPrefix(input[..t], pos, ReadLimit);
  }

  /** The read loop of readSTM32Data over a 64-byte buffer: it stops at the
      first CR or LF, after the 63rd stored character, or at the end of the
      input. `text` is what the buffer holds and `pos` how much of the input
      was consumed. */
  method ReadLoop(input: seq<char>) returns (text: seq<char>, pos: nat, lineComplete: bool)
    ensures pos <= |input| && |text| <= ReadLimit
    ensures lineComplete ==>
      1 <= pos && IsTerminator(input[pos - 1]) && pos - 1 <= FirstTerminator(input) &&
      text == Printables(input[..pos - 1]) && |text| < ReadLimit
    ensures !lineComplete ==> pos <= FirstTerminator(input) && text == Printables(input[..pos])
    ensures !lineComplete && |text| < ReadLimit ==> pos == |input|
    ensures !lineComplete && |text| == ReadLimit ==>
      1 <= pos && IsPrintable(input[pos - 1]) && |Printables(input[..pos - 1])| == ReadLimit - 1
  {
    var buffer := new char[BufferSize];
    var index := 0;
    pos := 0;
    lineComplete := false;
    while pos < |input| && index < ReadLimit
      invariant 0 <= pos <= |input| && 0 <= index <= ReadLimit
      invariant buffer[..index] == Printables(input[..pos])
      invariant pos <= FirstTerminator(input)
      invariant index == ReadLimit ==> pos >= 1 && IsPrintable(input[pos - 1])
      invariant index == ReadLimit ==> |Printables(input[..pos - 1])| == ReadLimit - 1
    {
      var c := input[pos];
      PrintablesSnoc(input, pos);
      pos := pos + 1;
      if IsTerminator(c) {
        text := buffer[..index];
        buffer[index] := '\0';
        lineComplete := true;
        return;
      }
      if IsPrintable(c) {
        buffer[index] := c;
        index := index + 1;
      }
    }
    text := buffer[..index];
  }

  /** One read: the loop, then the choice between a completed line and none. */
  method AssembleLine(input: seq<char>) returns (r: LineRead)
    ensures r == ReadLine(input)
  {
    var text, pos, lineComplete := ReadLoop(input);
    if lineComplete {
      ReadLineAtTerminator(input, pos - 1);
      r := Line(text, input[pos..]);
    } else if |text| == ReadLimit {
      ReadLineAtLimit(input, pos);
      r := NoLine(input[pos..]);
    } else {
      assert input[..pos] == input;
      r := NoLine([]);
    }
  }
}
