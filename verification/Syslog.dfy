/** Forwarding audit records: the syslog line of section 6 of RFC 5424 and the octet-counted frame
    of section 3.4.1 of RFC 6587. A string stands for its octets, one character each. */
module Syslog {
  import opened Common
  import opened Decimal

  const NIL_VALUE := "-"
  const MAX_FIELD := 48

  // ---- Frames on a stream -------------------------------------------------------------------

  function Frame(msg: string): string { FormatNat(|msg|) + " " + msg }

  function Stream(msgs: seq<string>): string {
    if msgs == [] then [] else Frame(msgs[0]) + Stream(msgs[1..])
  }

  function DigitRun(s: string): (n: nat)
    ensures n <= |s| && forall i :: 0 <= i < n ==> IsDigit(s[i])
    ensures n < |s| ==> !IsDigit(s[n])
  {
    if s == [] || !IsDigit(s[0]) then 0 else 1 + DigitRun(s[1..])
  }

  /** A collector: MSG-LEN without leading zero, a space, and that many octets, repeated. */
  function ParseStream(s: string): Option<seq<string>>
    decreases |s|
  {
    if s == [] then Some([]) else
    var d := DigitRun(s);
    if d == 0 || d == |s| || s[0] == '0' || s[d] != ' ' then None else
    var n := ParseNat(s[..d]);
    if d + 1 + n > |s| then None else
    var rest := ParseStream(s[d + 1 + n..]);
    if rest.None? then None else Some([s[d + 1..d + 1 + n]] + rest.value)
  }

  lemma {:induction false} NoLeadingZero(n: nat)
    requires n > 0
    ensures FormatNat(n)[0] != '0'
  {
    if n >= 10 {
      NoLeadingZero(n / 10);
    }
  }

  lemma {:induction false} DigitRunOf(digits: string, rest: string)
    requires forall i :: 0 <= i < |digits| ==> IsDigit(digits[i])
    requires rest == [] || !IsDigit(rest[0])
    ensures DigitRun(digits + rest) == |digits|
  {
    if digits != [] {
      assert (digits + rest)[1..] == digits[1..] + rest;
      DigitRunOf(digits[1..], rest);
    } else {
      assert digits + rest == rest;
    }
  }

  lemma FrameParses(msg: string, rest: string)
    requires msg != []
    ensures ParseStream(Frame(msg) + rest) ==
            var tail := ParseStream(rest); if tail.None? then None else Some([msg] + tail.value)
  {
    var s, digits := Frame(msg) + rest, FormatNat(|msg|);
    var d := |digits|;
    assert s == digits + (" " + msg + rest);
    DigitRunOf(digits, " " + msg + rest);
    NoLeadingZero(|msg|);
    ParseFormat(|msg|);
    assert s[..d] == digits && s[d] == ' ' && s[0] == digits[0];
    assert s[d + 1..d + 1 + |msg|] == msg && s[d + 1 + |msg|..] == rest;
  }

  /** Whatever the messages contain, the collector gets back exactly the messages that were sent. */
  lemma {:induction false} StreamRoundTrip(msgs: seq<string>)
    requires forall i :: 0 <= i < |msgs| ==> msgs[i] != []
    ensures ParseStream(Stream(msgs)) == Some(msgs)
  {
    if msgs != [] {
      StreamRoundTrip(msgs[1..]);
      FrameParses(msgs[0], Stream(msgs[1..]));
      assert [msgs[0]] + msgs[1..] == msgs;
    }
  }

  ghost predicate NoneEmpty(msgs: seq<string>) { forall i :: 0 <= i < |msgs| ==> msgs[i] != [] }

  /** A length written without leading zero is written in one way only. */
  lemma {:induction false} FormatParse(digits: string)
    requires digits != [] && digits[0] != '0' && forall i :: 0 <= i < |digits| ==> IsDigit(digits[i])
    ensures ParseNat(digits) > 0 && FormatNat(ParseNat(digits)) == digits
  {
    var last := |digits| - 1;
    assert IsDigit(digits[last]) && digits == digits[..last] + [digits[last]];
    if last > 0 {
      FormatParse(digits[..last]);
    } else {
      assert digits[..0] == [];
    }
  }

  lemma FirstFrame(s: string, d: nat, msg: string, rest: string)
    requires 0 < d < |s| && s[0] != '0' && s[d] == ' ' && forall i :: 0 <= i < d ==> IsDigit(s[i])
    requires d + 1 + ParseNat(s[..d]) <= |s|
    requires msg == s[d + 1..d + 1 + ParseNat(s[..d])] && rest == s[d + 1 + ParseNat(s[..d])..]
    ensures s == Frame(msg) + rest && msg != []
  {
    FormatParse(s[..d]);
    assert s == s[..d] + " " + msg + rest;
  }

  /** And so a stream that parses is the stream of what it parses to. */
  lemma {:induction false} ParseIsCanonical(s: string, msgs: seq<string>)
    requires ParseStream(s) == Some(msgs)
    ensures s == Stream(msgs) && NoneEmpty(msgs)
    decreases |s|
  {
    if s != [] {
      var d := DigitRun(s);
      var rest := s[d + 1 + ParseNat(s[..d])..];
      FirstFrame(s, d, msgs[0], rest);
      ParseIsCanonical(rest, msgs[1..]);
    }
  }

  lemma {:induction false} StreamAppend(msgs: seq<string>, msg: string)
    ensures Stream(msgs + [msg]) == Stream(msgs) + Frame(msg)
  {
    if msgs == [] {
      assert [msg][1..] == [] && msgs + [msg] == [msg];
    } else {
      assert (msgs + [msg])[1..] == msgs[1..] + [msg] && (msgs + [msg])[0] == msgs[0];
      StreamAppend(msgs[1..], msg);
    }
  }

  // ---- Header fields --------------------------------------------------------------------------

  predicate Printable(c: char) { 33 <= c as int <= 126 }

  function Kept(s: string): string {
    if s == [] then [] else (if Printable(s[0]) then [s[0]] else []) + Kept(s[1..])
  }

  lemma {:induction false} KeptOneMore(s: string, c: char)
    ensures Kept(s + [c]) == Kept(s) + if Printable(c) then [c] else []
  {
    if s == [] {
      assert s + [c] == [c] && [c][1..] == [];
    } else {
      assert (s + [c])[0] == s[0];
      assert (s + [c])[1..] == s[1..] + [c];
      KeptOneMore(s[1..], c);
    }
  }

  lemma {:induction false} KeptPrefix(s: string, i: nat)
    requires i <= |s|
    ensures Kept(s[..i]) <= Kept(s)
    decreases |s| - i
  {
    if i < |s| {
      KeptPrefix(s, i + 1);
      KeptOneMore(s[..i], s[i]);
      assert s[..i + 1] == s[..i] + [s[i]];
    } else {
      assert s[..i] == s;
    }
  }

  /** The first 48 printable characters of the text, or a dash when there are none. */
  function Sanitized(s: string): (r: string)
    ensures 1 <= |r| <= MAX_FIELD
  {
    var kept := Kept(s);
    if kept == [] then NIL_VALUE else kept[..Min(|kept|, MAX_FIELD)]
  }

  lemma {:induction false} KeptIsPrintable(s: string)
    ensures forall i :: 0 <= i < |Kept(s)| ==> Printable(Kept(s)[i])
    ensures (forall i :: 0 <= i < |s| ==> Printable(s[i])) ==> Kept(s) == s
  {
    if s != [] {
      KeptIsPrintable(s[1..]);
      assert forall i :: 0 <= i < |s[1..]| ==> s[1..][i] == s[i + 1];
    }
  }

  /** A field holds only characters from the exclamation mark to the tilde, and a text of up to 48 of
      those stays as it is; so no field contains a space, and cleaning it again changes nothing. */
  lemma SanitizedIsClean(s: string)
    ensures forall c :: c in Sanitized(s) ==> '!' <= c <= '~'
    ensures 0 < |s| <= 48 && (forall c :: c in s ==> '!' <= c <= '~') ==> Sanitized(s) == s
    ensures ' ' !in Sanitized(s) && Sanitized(Sanitized(s)) == Sanitized(s)
  {
    KeptIsPrintable(s);
    KeptIsPrintable(Sanitized(s));
    assert forall i :: 0 <= i < |Sanitized(s)| ==> Printable(Sanitized(s)[i]);
    assert forall i :: 0 <= i < |s| ==> s[i] in s;
    assert |s| <= 48 ==> s[..Min(|s|, MAX_FIELD)] == s;
  }

  /** Copies printable characters until the text ends or the field is full. */
  method SanitizeHeader(s: string) returns (field: string)
    ensures field == Sanitized(s)
  {
    if s == "" {
      return NIL_VALUE;
    }
    field := "";
    for i := 0 to |s|
      invariant field == Kept(s[..i]) && |field| < MAX_FIELD
    {
      assert s[..i + 1] == s[..i] + [s[i]];
      KeptOneMore(s[..i], s[i]);
      if !Printable(s[i]) {
        continue;
      }
      field := field + [s[i]];
      if |field| >= MAX_FIELD {
        KeptPrefix(s, i + 1);
        return;
      }
    }
    assert s[..|s|] == s;
    if |field| == 0 {
      return NIL_VALUE;
    }
  }

  // ---- The message -------------------------------------------------------------------------------

  const SEV_WARNING := 4
  const SEV_INFO := 6

  function Severity(success: bool): int { if success then SEV_INFO else SEV_WARNING }

  /** Calendar fields in UTC, rendered as RFC 3339 with as many fraction digits as needed. */
  datatype Timestamp = Timestamp(year: nat, month: nat, day: nat, hour: nat, minute: nat, second: nat, nanos: nat)

  function TrimZeros(s: string): string {
    if s != [] && s[|s| - 1] == '0' then TrimZeros(s[..|s| - 1]) else s
  }

  function Fraction(nanos: nat): string { if nanos == 0 then "" else "." + TrimZeros(Pad(nanos, 9)) }

  function Render(t: Timestamp): string {
    Pad(t.year, 4) + "-" + Pad(t.month, 2) + "-" + Pad(t.day, 2) + "T"
    + Pad(t.hour, 2) + ":" + Pad(t.minute, 2) + ":" + Pad(t.second, 2)
    + Fraction(t.nanos) + "Z"
  }

  lemma {:induction false} TrimHasNoSpace(s: string)
    requires ' ' !in s
    ensures ' ' !in TrimZeros(s)
  {
    if s != [] && s[|s| - 1] == '0' {
      TrimHasNoSpace(s[..|s| - 1]);
    }
  }

  lemma RenderHasNoSpace(t: Timestamp)
    ensures ' ' !in Render(t)
  {
    PadIsDigits(t.year, 4);
    PadIsDigits(t.month, 2);
    PadIsDigits(t.day, 2);
    PadIsDigits(t.hour, 2);
    PadIsDigits(t.minute, 2);
    PadIsDigits(t.second, 2);
    PadIsDigits(t.nanos, 9);
    TrimHasNoSpace(Pad(t.nanos, 9));
  }

  // ---- Reading the time back ---------------------------------------------------------------------

  /** The fields of a point in time: two digits each but for the year's four, and nanoseconds. */
  predicate InRange(t: Timestamp) {
    && t.year < 10_000 && t.month < 100 && t.day < 100 && t.hour < 100 && t.minute < 100 && t.second < 100
    && t.nanos < 1_000_000_000
  }

  function Pow10(n: nat): nat { if n == 0 then 1 else 10 * Pow10(n - 1) }

  lemma {:induction false} WidthOf(n: nat, width: nat)
    requires n < Pow10(width) && width > 0
    ensures |FormatNat(n)| <= width
  {
    if n >= 10 {
      WidthOf(n / 10, width - 1);
    }
  }

  lemma {:induction false} TrimKeepsValue(s: string)
    requires Digits(s)
    ensures |TrimZeros(s)| <= |s| && Digits(TrimZeros(s))
    ensures ParseNat(s) == ParseNat(TrimZeros(s)) * Pow10(|s| - |TrimZeros(s)|)
    ensures TrimZeros(s) != [] ==> TrimZeros(s)[|TrimZeros(s)| - 1] != '0'
  {
    if s != [] && s[|s| - 1] == '0' {
      TrimKeepsValue(s[..|s| - 1]);
      var k := |s| - 1 - |TrimZeros(s)|;
      assert ParseNat(s) == 10 * (ParseNat(TrimZeros(s)) * Pow10(k)) == ParseNat(TrimZeros(s)) * Pow10(k + 1);
    }
  }

  /** A number of so many digits, as it stands in a text. */
  ghost predicate ReadsAs(text: string, from: nat, to: nat, n: nat) {
    from <= to <= |text| && Digits(text[from..to]) && ParseNat(text[from..to]) == n
  }

  lemma FieldReads(n: nat, width: nat)
    requires 0 < width && n < Pow10(width)
    ensures |Pad(n, width)| == width && Digits(Pad(n, width)) && ParseNat(Pad(n, width)) == n
  {
    WidthOf(n, width);
    PadIsDigits(n, width);
    ParsePad(n, width);
  }

  lemma Places(a: string, b: string, c: string, d: string, e: string, f: string, g: string)
    requires |a| == 4 && |b| == |c| == |d| == |e| == |f| == 2
    ensures var text := a + "-" + b + "-" + c + "T" + d + ":" + e + ":" + f + g;
            && |text| >= 19 && text[..4] == a && text[5..7] == b && text[8..10] == c && text[11..13] == d
            && text[14..16] == e && text[17..19] == f && text[19..] == g
            && text[4] == text[7] == '-' && text[10] == 'T' && text[13] == text[16] == ':'
  {
  }

  /** Year, month, day, hour, minute and second are read back from their places. */
  lemma TimeReads(t: Timestamp)
    requires InRange(t)
    ensures var text := Render(t);
            && ReadsAs(text, 0, 4, t.year) && ReadsAs(text, 5, 7, t.month) && ReadsAs(text, 8, 10, t.day)
            && ReadsAs(text, 11, 13, t.hour) && ReadsAs(text, 14, 16, t.minute) && ReadsAs(text, 17, 19, t.second)
            && text[4] == text[7] == '-' && text[10] == 'T' && text[13] == text[16] == ':'
            && text[19..] == Fraction(t.nanos) + "Z"
  {
    TenPowers();
    FieldReads(t.year, 4);
    FieldReads(t.month, 2);
    FieldReads(t.day, 2);
    FieldReads(t.hour, 2);
    FieldReads(t.minute, 2);
    FieldReads(t.second, 2);
    var rest := Fraction(t.nanos) + "Z";
    Places(Pad(t.year, 4), Pad(t.month, 2), Pad(t.day, 2), Pad(t.hour, 2), Pad(t.minute, 2), Pad(t.second, 2), rest);
    var front := Pad(t.year, 4) + "-" + Pad(t.month, 2) + "-" + Pad(t.day, 2) + "T"
                 + Pad(t.hour, 2) + ":" + Pad(t.minute, 2) + ":" + Pad(t.second, 2);
    assert Render(t) == front + rest;
    assert Render(t)[0..4] == Render(t)[..4];
  }

  lemma TenPowers()
    ensures Pow10(2) == 100 && Pow10(4) == 10_000 && Pow10(9) == 1_000_000_000
  {
    assert Pow10(6) == 1_000_000;
  }

  /** What follows the seconds is the fraction without trailing zeros, or nothing. */
  lemma FractionReads(nanos: nat)
    requires 0 < nanos < 1_000_000_000
    ensures var digits := Fraction(nanos)[1..];
            && Fraction(nanos)[0] == '.' && 0 < |digits| <= 9 && Digits(digits) && digits[|digits| - 1] != '0'
            && ParseNat(digits) * Pow10(9 - |digits|) == nanos
  {
    TenPowers();
    WidthOf(nanos, 9);
    PadIsDigits(nanos, 9);
    ParsePad(nanos, 9);
    TrimKeepsValue(Pad(nanos, 9));
    assert Fraction(nanos)[1..] == TrimZeros(Pad(nanos, 9));
  }

  // ---- The line ------------------------------------------------------------------------------------

  function Priority(facility: nat, success: bool): string {
    "<" + FormatNat(facility * 8 + Severity(success)) + ">1"
  }

  /** The fields of a line, header first; PROCID and STRUCTURED-DATA are always nil. */
  function Fields(facility: nat, success: bool, time: Timestamp, hostname: string, appName: string,
      eventType: string): seq<string> {
    [Priority(facility, success), Render(time), Sanitized(hostname), Sanitized(appName), NIL_VALUE,
     Sanitized(eventType), NIL_VALUE]
  }

  function Joined(fields: seq<string>, body: string): string {
    if fields == [] then body else fields[0] + " " + Joined(fields[1..], body)
  }

  function Format(facility: nat, success: bool, time: Timestamp, hostname: string, appName: string, eventType: string,
                  body: string): string {
    Joined(Fields(facility, success, time, hostname, appName, eventType), body)
  }

  function FirstSpace(s: string): (n: nat)
    ensures n <= |s| && ' ' !in s[..n] && (n < |s| ==> s[n] == ' ')
  {
    if s == [] || s[0] == ' ' then 0 else
    var k := FirstSpace(s[1..]);
    assert s[..1 + k] == [s[0]] + s[1..][..k];
    1 + k
  }

  /** Cuts off up to `n` fields at the first spaces; what remains is the body. */
  function Split(s: string, n: nat): (seq<string>, string) {
    var k := FirstSpace(s);
    if n == 0 || k == |s| then ([], s) else
    var (fields, body) := Split(s[k + 1..], n - 1);
    ([s[..k]] + fields, body)
  }

  lemma {:induction false} FirstSpaceOf(field: string, rest: string)
    requires ' ' !in field
    ensures FirstSpace(field + " " + rest) == |field|
  {
    if field != [] {
      assert (field + " " + rest)[1..] == field[1..] + " " + rest;
      FirstSpaceOf(field[1..], rest);
    }
  }

  lemma {:induction false} SplitJoined(fields: seq<string>, body: string)
    requires forall i :: 0 <= i < |fields| ==> ' ' !in fields[i]
    ensures Split(Joined(fields, body), |fields|) == (fields, body)
  {
    if fields != [] {
      var rest := Joined(fields[1..], body);
      var s := fields[0] + " " + rest;
      FirstSpaceOf(fields[0], rest);
      assert s[|fields[0]| + 1..] == rest && s[..|fields[0]|] == fields[0];
      SplitJoined(fields[1..], body);
      assert [fields[0]] + fields[1..] == fields;
    }
  }

  lemma PriorityHasNoSpace(facility: nat, success: bool)
    ensures ' ' !in Priority(facility, success)
  {
  }

  lemma FieldsHaveNoSpace(pri: string, time: string, hostname: string, appName: string, eventType: string)
    requires ' ' !in pri && ' ' !in time
    ensures var fields := [pri, time, Sanitized(hostname), Sanitized(appName), NIL_VALUE, Sanitized(eventType),
        NIL_VALUE];
            forall i :: 0 <= i < |fields| ==> ' ' !in fields[i]
  {
    SanitizedIsClean(hostname);
    SanitizedIsClean(appName);
    SanitizedIsClean(eventType);
  }

  /** Whatever hostname, application and event type contain, the first seven spaces delimit the
      header, and everything after them is the body. */
  lemma HeaderRoundTrip(facility: nat, success: bool, time: Timestamp, hostname: string, appName: string,
                        eventType: string, body: string)
    ensures Split(Format(facility, success, time, hostname, appName, eventType, body), 7)
            == (Fields(facility, success, time, hostname, appName, eventType), body)
  {
    FieldsHaveNoSpace(Priority(facility, success), Render(time), hostname, appName, eventType) by {
      PriorityHasNoSpace(facility, success);
      RenderHasNoSpace(time);
    }
    SplitJoined(Fields(facility, success, time, hostname, appName, eventType), body);
  }

  /** Facility and outcome are read back from the first field: its digits, divided by eight. */
  lemma PriorityRoundTrip(facility: nat, success: bool)
    ensures var field := Priority(facility, success);
            var d := DigitRun(field[1..]);
            && field[1 + d..] == ">1"
            && ParseNat(field[1..][..d]) / 8 == facility
            && ParseNat(field[1..][..d]) % 8 == if success then 6 else 4
  {
    var n := facility * 8 + Severity(success);
    var field := Priority(facility, success);
    assert field[1..] == FormatNat(n) + ">1";
    DigitRunOf(FormatNat(n), ">1");
    ParseFormat(n);
    assert field[1..][..|FormatNat(n)|] == FormatNat(n);
  }

  // ---- The writer ----------------------------------------------------------------------------------

  const UDP := "udp"

  /** What the network does with one attempt: whether a dial goes through, and whether a write does;
      a write that fails may have put some octets on the wire already. */
  datatype Attempt = Attempt(dials: bool, writes: bool, octets: nat)

  /** A connection to the collector: the octets on it, the lines written to it in full, and how many of
      the octets come from writes that failed. Over UDP every line is a datagram of its own. */
  datatype Connection = Connection(live: bool, wire: string, messages: seq<string>, torn: nat)

  const CLOSED := Connection(false, [], [], 0)

  function Payload(proto: string, msg: string): string { if proto == UDP then msg else Frame(msg) }

  function Torn(proto: string, msg: string, octets: nat): string {
    if proto == UDP then [] else Frame(msg)[..Min(octets, |Frame(msg)|)]
  }

  function Attempted(c: Connection, proto: string, msg: string, a: Attempt): (Connection, bool) {
    if !c.live && !a.dials then (c, false)
    else if a.writes then (Connection(true, c.wire + Payload(proto, msg), c.messages + [msg], c.torn), true)
    else
      var part := Torn(proto, msg, a.octets);
      (Connection(true, c.wire + part, c.messages, c.torn + |part|), false)
  }

  /** One message: a second attempt on a new connection, except over UDP. A second failure leaves that
      connection open, with whatever it has put there. */
  function Written(c: Connection, proto: string, msg: string, first: Attempt, second: Attempt): (Connection, bool) {
    var (c', ok) := Attempted(c, proto, msg, first);
    if ok || proto == UDP then (c', ok) else Attempted(CLOSED, proto, msg, second)
  }

  datatype Call = Call(msg: string, first: Attempt, second: Attempt)

  /** The connection after any number of calls. */
  function After(proto: string, calls: seq<Call>): Connection {
    if calls == [] then CLOSED
    else
      var last := calls[|calls| - 1];
      Written(After(proto, calls[..|calls| - 1]), proto, last.msg, last.first, last.second).0
  }

  ghost predicate Accounted(c: Connection) {
    |c.wire| == |Stream(c.messages)| + c.torn && (c.torn == 0 ==> c.wire == Stream(c.messages))
  }

  lemma AttemptAccounted(c: Connection, proto: string, msg: string, a: Attempt)
    requires Accounted(c) && proto != UDP
    ensures Accounted(Attempted(c, proto, msg, a).0)
  {
    StreamAppend(c.messages, msg);
  }

  lemma {:induction false} CallsAccounted(proto: string, calls: seq<Call>)
    requires proto != UDP
    ensures Accounted(After(proto, calls))
  {
    if calls != [] {
      var before, last := calls[..|calls| - 1], calls[|calls| - 1];
      CallsAccounted(proto, before);
      AttemptAccounted(After(proto, before), proto, last.msg, last.first);
      AttemptAccounted(CLOSED, proto, last.msg, last.second);
    }
  }

  /** After any calls over a stream, whatever the network did: the collector reads exactly the messages
      that were written to the connection if and only if no failed write has left octets on it and
      none of them was empty, which a formatted record never is. */
  lemma CollectorReadsEveryMessageIff(proto: string, calls: seq<Call>)
    requires proto != UDP
    ensures var c := After(proto, calls);
            ParseStream(c.wire) == Some(c.messages) <==> c.torn == 0 && NoneEmpty(c.messages)
  {
    var c := After(proto, calls);
    CallsAccounted(proto, calls);
    if NoneEmpty(c.messages) {
      StreamRoundTrip(c.messages);
    }
    if ParseStream(c.wire) == Some(c.messages) {
      ParseIsCanonical(c.wire, c.messages);
    }
  }

  /** Octets are left exactly by a call whose retry failed part-way, or were there before it. */
  lemma TornByRetryIff(c: Connection, proto: string, msg: string, first: Attempt, second: Attempt)
    requires proto != UDP
    ensures Written(c, proto, msg, first, second).0.torn > 0
            <==> if (c.live || first.dials) && first.writes then c.torn > 0
                 else second.dials && !second.writes && second.octets > 0
  {
  }

  /** Both attempts at a first message fail, the second after three octets; the next message goes out
      on the same connection, and the collector takes the rest of the torn line out of it. */
  lemma TornLineIsMisread()
    ensures var fails, works := Attempt(true, false, 3), Attempt(false, true, 0);
            var c := After("tcp", [Call("hello", fails, fails), Call("bc", works, works)]);
            c.messages == ["bc"] && ParseStream(c.wire) == Some(["h2 bc"])
  {
    var fails, works := Attempt(true, false, 3), Attempt(false, true, 0);
    var calls := [Call("hello", fails, fails), Call("bc", works, works)];
    assert calls[..1] == [calls[0]] && calls[..1][..0] == [];
    assert Frame("hello") == "5 hello" && Frame("bc") == "2 bc";
    var c := After("tcp", calls[..1]);
    assert c == Connection(true, "5 h", [], 3);
    assert After("tcp", calls).wire == "5 h2 bc";
    ReadsAsOne();
  }

  lemma ReadsAsOne()
    ensures ParseStream("5 h2 bc") == Some(["h2 bc"])
  {
    var s := "5 h2 bc";
    assert s == Frame("h2 bc") + [];
    FrameParses("h2 bc", []);
    assert ["h2 bc"] + [] == ["h2 bc"];
  }

  class Writer {
    const proto: string
    var live: bool
    var wire: string
    var messages: seq<string>
    var torn: nat

    function State(): Connection
      reads this
    {
      Connection(live, wire, messages, torn)
    }

    constructor (proto: string)
      ensures this.proto == proto && State() == CLOSED
    {
      this.proto := proto;
      live, wire, messages, torn := false, [], [], 0;
    }

    method WriteLocked(msg: string, a: Attempt) returns (ok: bool)
      modifies this
      ensures (State(), ok) == Attempted(old(State()), proto, msg, a)
    {
      if !live {
        if !a.dials {
          return false;
        }
        live := true;
      }
      var payload := if proto == UDP then msg else Frame(msg);
      if !a.writes {
        var part := Torn(proto, msg, a.octets);
        wire, torn := wire + part, torn + |part|;
        return false;
      }
      wire, messages := wire + payload, messages + [msg];
      return true;
    }

    method CloseLocked()
      modifies this
      ensures State() == CLOSED
    {
      live, wire, messages, torn := false, [], [], 0;
    }

    method Write(msg: string, first: Attempt, second: Attempt) returns (ok: bool)
      modifies this
      ensures (State(), ok) == Written(old(State()), proto, msg, first, second)
    {
      ok := WriteLocked(msg, first);
      if ok || proto == UDP {
        return;
      }
      CloseLocked();
      ok := WriteLocked(msg, second);
    }
  }
}
