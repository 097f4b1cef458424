/** The parsing of message records in apps/desktop/src/SmsBridgeController.cpp, and the records that
    android/src/com/LibreConnect/mobile/SmsUtils.kt writes. */
module MessageParsing {
  import opened Characters
  import opened Packable
  import RemotePath

  // ---------------------------------------------------------------------------------------
  // Searching
  // ---------------------------------------------------------------------------------------

  /** QString::indexOf. */
  function IndexOf(s: string, c: char, from: nat): (i: int)
    ensures i == -1 || from <= i < |s|
    decreases |s| - from
  {
    if from >= |s| then -1 else if s[from] == c then from else IndexOf(s, c, from + 1)
  }

  /** QString::lastIndexOf. */
  function LastIndexOf(s: string, c: char): (i: int)
    ensures -1 <= i < |s|
  {
    if s == "" then -1 else if s[|s| - 1] == c then |s| - 1 else LastIndexOf(s[..|s| - 1], c)
  }

  lemma {:induction false} IndexAt(s: string, c: char, from: nat, i: nat)
    requires from <= i < |s| && s[i] == c && forall j :: from <= j < i ==> s[j] != c
    ensures IndexOf(s, c, from) == i
    decreases |s| - from
  {
    if from < i {
      IndexAt(s, c, from + 1, i);
    }
  }

  lemma {:induction false} NoIndex(s: string, c: char, from: nat)
    requires forall j :: from <= j < |s| ==> s[j] != c
    ensures IndexOf(s, c, from) == -1
    decreases |s| - from
  {
    if from < |s| {
      NoIndex(s, c, from + 1);
    }
  }

  lemma {:induction false} LastIndexAt(s: string, c: char, i: nat)
    requires i < |s| && s[i] == c && forall j :: i < j < |s| ==> s[j] != c
    ensures LastIndexOf(s, c) == i
    decreases |s|
  {
    if i < |s| - 1 {
      LastIndexAt(s[..|s| - 1], c, i);
    }
  }

  predicate StartsWith(s: string, prefix: string) {
    prefix <= s
  }

  // ---------------------------------------------------------------------------------------
  // Numbers
  // ---------------------------------------------------------------------------------------

  function DigitsValue(s: string): int
    requires forall i :: 0 <= i < |s| ==> IsAsciiDigit(s[i])
  {
    if s == "" then 0 else 10 * DigitsValue(s[..|s| - 1]) + (s[|s| - 1] as int - '0' as int)
  }

  predicate AllAsciiDigits(s: string) {
    forall i :: 0 <= i < |s| ==> IsAsciiDigit(s[i])
  }

  function ParseNumber(text: string, min: int, max: int): Option<int> {
    var s := RemotePath.Trimmed(text);
    var negative := s != "" && s[0] == '-';
    var digits := if s != "" && (s[0] == '-' || s[0] == '+') then s[1..] else s;
    if digits == "" || !AllAsciiDigits(digits) then None
    else
      var n := if negative then -DigitsValue(digits) else DigitsValue(digits);
      if min <= n <= max then Some(n) else None
  }

  const I32_MAX: int := 0x7FFF_FFFF
  const I64_MAX: int := 0x7FFF_FFFF_FFFF_FFFF

  /** QString::toInt and QString::toLongLong in base ten. */
  function ToInt(text: string): Option<int> {
    ParseNumber(text, -I32_MAX - 1, I32_MAX)
  }

  function ToLongLong(text: string): Option<int> {
    ParseNumber(text, -I64_MAX - 1, I64_MAX)
  }

  /** A number as Kotlin's string templates write it. */
  function Digits(n: nat): (s: string)
    ensures s != "" && AllAsciiDigits(s) && DigitsValue(s) == n
  {
    var last := [('0' as int + n % 10) as char];
    if n < 10 then
      assert last[..0] == "";
      last
    else
      var front := Digits(n / 10);
      assert (front + last)[..|front|] == front;
      front + last
  }

  function Decimal(n: int): string {
    if n < 0 then "-" + Digits(-n) else Digits(n)
  }

  lemma DecimalHasNoSpace(n: int)
    ensures var d := Decimal(n);
      d != "" && !RemotePath.IsSpace(d[0]) && !RemotePath.IsSpace(d[|d| - 1]) && '|' !in d
  {
    var d := Decimal(n);
    var digits := Digits(if n < 0 then -n else n);
    assert IsAsciiDigit(digits[|digits| - 1]) && IsAsciiDigit(digits[0]);
    assert d[|d| - 1] == digits[|digits| - 1];
    forall i | 0 <= i < |d| ensures d[i] != '|' {
      assert n < 0 && i > 0 ==> d[i] == digits[i - 1];
    }
  }

  lemma ParseDecimal(n: int, min: int, max: int)
    requires min <= n <= max
    ensures ParseNumber(Decimal(n), min, max) == Some(n)
  {
    DecimalHasNoSpace(n);
    hide RemotePath.IsSpace, RemotePath.Trimmed;
    var d := Decimal(n);
    assert RemotePath.Trimmed(d) == d;
    if n < 0 {
      assert d[1..] == Digits(-n);
    } else {
      assert IsAsciiDigit(d[0]);
    }
  }

  // ---------------------------------------------------------------------------------------
  // Records
  // ---------------------------------------------------------------------------------------

  datatype Fields = Fields(messageType: int, timestamp: int, body: string)

  /** parseTimestampedMessage: nothing when the record has another prefix, and otherwise what the
      out-parameters hold afterwards. */
  function ParseTimestamped(raw: string, prefix: string, trimTrailingSection: bool, before: Fields): Option<Fields> {
    if !StartsWith(raw, prefix) then None
    else
      var first := IndexOf(raw, '|', |prefix|);
      var second := if first < 0 then -1 else IndexOf(raw, '|', first + 1);
      if first <= |prefix| || second <= first then Some(before.(body := raw[|prefix|..]))
      else
        var last := if trimTrailingSection then LastIndexOf(raw, '|') else -1;
        var bodyEnd := if trimTrailingSection && last > second then last else |raw|;
        var messageType := ToInt(raw[|prefix|..first]);
        var timestamp := ToLongLong(raw[first + 1..second]);
        Some(Fields(
          if messageType.Some? then messageType.value else before.messageType,
          if timestamp.Some? && timestamp.value > 0 then timestamp.value else before.timestamp,
          raw[second + 1..bodyEnd]))
  }

  /** QString::split, leaving out empty parts. */
  function SplitNonEmpty(s: string, separator: char): seq<string> {
    var i := IndexOf(s, separator, 0);
    if i < 0 then if s == "" then [] else [s]
    else (if i == 0 then [] else [s[..i]]) + SplitNonEmpty(s[i + 1..], separator)
  }

  /** The trimmed parts that are not empty. */
  function TrimmedParts(parts: seq<string>): seq<string> {
    if parts == [] then []
    else
      var t := RemotePath.Trimmed(parts[0]);
      (if t == "" then [] else [t]) + TrimmedParts(parts[1..])
  }

  function AttachmentTargets(raw: string): seq<string> {
    if !StartsWith(raw, "mms|") then []
    else
      var first := IndexOf(raw, '|', 4);
      var second := if first < 0 then -1 else IndexOf(raw, '|', first + 1);
      var last := LastIndexOf(raw, '|');
      if first <= 4 || second <= first || last <= second then []
      else
        var section := RemotePath.Trimmed(raw[last + 1..]);
        if section == "" then [] else TrimmedParts(SplitNonEmpty(section, ';'))
  }

  lemma TrimmedFirst(parts: seq<string>)
    requires parts != []
    ensures var t := RemotePath.Trimmed(parts[0]);
      TrimmedParts(parts) == if t == "" then TrimmedParts(parts[1..]) else [t] + TrimmedParts(parts[1..])
  {
  }

  /** The loop of extractMmsAttachmentTargets. */
  method TrimmedCandidates(candidates: seq<string>) returns (targets: seq<string>)
    ensures targets == TrimmedParts(candidates)
  {
    assert candidates[0..] == candidates && candidates[|candidates|..] == [] && TrimmedParts([]) == [];
    hide RemotePath.Trimmed, TrimmedParts;
    targets := [];
    var i := 0;
    while i < |candidates|
      invariant 0 <= i <= |candidates|
      invariant TrimmedParts(candidates) == targets + TrimmedParts(candidates[i..])
    {
      TrimmedFirst(candidates[i..]);
      assert candidates[i..][1..] == candidates[i + 1..];
      Associative(targets, [RemotePath.Trimmed(candidates[i])], TrimmedParts(candidates[i + 1..]));
      var trimmed := RemotePath.Trimmed(candidates[i]);
      if trimmed != "" {
        targets := targets + [trimmed];
      }
      i := i + 1;
    }
  }

  method ExtractMmsAttachmentTargets(raw: string) returns (targets: seq<string>)
    ensures targets == AttachmentTargets(raw)
  {
    hide IndexOf, LastIndexOf, SplitNonEmpty, TrimmedParts, RemotePath.Trimmed;
    if !StartsWith(raw, "mms|") {
      return [];
    }
    var firstSeparator := IndexOf(raw, '|', 4);
    var secondSeparator := if firstSeparator < 0 then -1 else IndexOf(raw, '|', firstSeparator + 1);
    var lastSeparator := LastIndexOf(raw, '|');
    if firstSeparator <= 4 || secondSeparator <= firstSeparator || lastSeparator <= secondSeparator {
      return [];
    }
    var attachmentsSection := RemotePath.Trimmed(raw[lastSeparator + 1..]);
    if attachmentsSection == "" {
      return [];
    }
    targets := TrimmedCandidates(SplitNonEmpty(attachmentsSection, ';'));
  }

  datatype ParsedMessage = ParsedMessage(incoming: bool, timestamp: int, body: string, targets: seq<string>)

  /** parseMessage. */
  function ParseMessage(raw: string, defaultTimestamp: int): ParsedMessage {
    var before := Fields(1, defaultTimestamp, "");
    var sms := ParseTimestamped(raw, "v2|", false, before);
    var mms := ParseTimestamped(raw, "mms|", true, before);
    var fields :=
      if sms.Some? then sms.value
      else if mms.Some? then mms.value
      else if raw != "" && IsDigit(raw[0]) then before.(messageType := DigitValue(raw[0]), body := raw[1..])
      else before.(body := raw);
    ParsedMessage(fields.messageType == 1 || fields.messageType == 0, fields.timestamp, fields.body,
      AttachmentTargets(raw))
  }

  // ---------------------------------------------------------------------------------------
  // What the phone sends
  // ---------------------------------------------------------------------------------------

  function Join(parts: seq<string>, separator: char): string {
    if parts == [] then ""
    else if |parts| == 1 then parts[0]
    else parts[0] + [separator] + Join(parts[1..], separator)
  }

  function SmsRecord(messageType: int, timestamp: int, body: string): string {
    "v2|" + Decimal(messageType) + "|" + Decimal(timestamp) + "|" + body
  }

  function MmsRecord(messageType: int, timestamp: int, body: string, attachments: seq<string>): string {
    "mms|" + Decimal(messageType) + "|" + Decimal(timestamp) + "|" + body + "|" + Join(attachments, ';')
  }

  predicate I32(n: int) {
    -I32_MAX - 1 <= n <= I32_MAX
  }

  predicate I64(n: int) {
    -I64_MAX - 1 <= n <= I64_MAX
  }

  lemma IndexAfter(prefix: string, part: string, c: char, rest: string)
    requires c !in part
    ensures IndexOf(prefix + part + [c] + rest, c, |prefix|) == |prefix| + |part|
  {
    var s := prefix + part + [c] + rest;
    assert s[|prefix| + |part|] == c;
    assert forall j :: |prefix| <= j < |prefix| + |part| ==> s[j] == part[j - |prefix|];
    IndexAt(s, c, |prefix|, |prefix| + |part|);
  }

  /** The first separators of a record, and the numbers before them. */
  predicate HasHead(raw: string, prefix: string, first: int, second: int, messageType: int, timestamp: int) {
    && prefix <= raw && |prefix| < first < second < |raw|
    && first == IndexOf(raw, '|', |prefix|) && second == IndexOf(raw, '|', first + 1)
    && ToInt(raw[|prefix|..first]) == Some(messageType) && ToLongLong(raw[first + 1..second]) == Some(timestamp)
  }

  lemma RecordHasHead(prefix: string, messageType: int, timestamp: int, rest: string)
    requires I32(messageType) && I64(timestamp)
    ensures var t, ts := Decimal(messageType), Decimal(timestamp);
      var raw, first := prefix + t + "|" + ts + "|" + rest, |prefix| + |t|;
      var second := first + 1 + |ts|;
      HasHead(raw, prefix, first, second, messageType, timestamp) && second + 1 + |rest| == |raw|
        && raw[second + 1..] == rest
  {
    hide Decimal, RemotePath.IsSpace, ParseNumber, HasHead;
    DecimalHasNoSpace(messageType);
    DecimalHasNoSpace(timestamp);
    ParseDecimal(messageType, -I32_MAX - 1, I32_MAX);
    ParseDecimal(timestamp, -I64_MAX - 1, I64_MAX);
    HeadFound(prefix, Decimal(messageType), Decimal(timestamp), rest, messageType, timestamp);
  }

  lemma HeadFound(prefix: string, t: string, ts: string, rest: string, messageType: int, timestamp: int)
    requires t != "" && '|' !in t && '|' !in ts && ToInt(t) == Some(messageType) && ToLongLong(ts) == Some(timestamp)
    ensures var raw, first := prefix + t + "|" + ts + "|" + rest, |prefix| + |t|;
      var second := first + 1 + |ts|;
      HasHead(raw, prefix, first, second, messageType, timestamp) && second + 1 + |rest| == |raw|
        && raw[second + 1..] == rest
  {
    hide IndexOf, ToInt, ToLongLong;
    var raw, first := prefix + t + "|" + ts + "|" + rest, |prefix| + |t|;
    assert raw == prefix + t + "|" + (ts + "|" + rest);
    IndexAfter(prefix, t, '|', ts + "|" + rest);
    assert raw == (prefix + t + "|") + ts + "|" + rest;
    IndexAfter(prefix + t + "|", ts, '|', rest);
    assert raw[|prefix|..first] == t && raw[first + 1..first + 1 + |ts|] == ts;
  }

  lemma FieldsOf(raw: string, prefix: string, trim: bool, before: Fields, first: int, second: int, messageType: int,
                 timestamp: int)
    requires HasHead(raw, prefix, first, second, messageType, timestamp)
    ensures var bodyEnd := if trim && LastIndexOf(raw, '|') > second then LastIndexOf(raw, '|') else |raw|;
      ParseTimestamped(raw, prefix, trim, before) ==
        Some(Fields(messageType, if timestamp > 0 then timestamp else before.timestamp, raw[second + 1..bodyEnd]))
  {
    hide ToInt, ToLongLong, IndexOf, LastIndexOf;
  }

  lemma TargetsOf(raw: string, first: int, second: int, messageType: int, timestamp: int)
    requires HasHead(raw, "mms|", first, second, messageType, timestamp) && LastIndexOf(raw, '|') > second
    ensures var section := RemotePath.Trimmed(raw[LastIndexOf(raw, '|') + 1..]);
      AttachmentTargets(raw) == if section == "" then [] else TrimmedParts(SplitNonEmpty(section, ';'))
  {
    hide ToInt, ToLongLong, IndexOf, LastIndexOf, SplitNonEmpty, TrimmedParts, RemotePath.Trimmed;
  }

  /** Which of the two formats a record is in. */
  lemma SmsMessage(raw: string, defaultTimestamp: int)
    requires StartsWith(raw, "v2|") && ParseTimestamped(raw, "v2|", false, Fields(1, defaultTimestamp, "")).Some?
    ensures var fields := ParseTimestamped(raw, "v2|", false, Fields(1, defaultTimestamp, "")).value;
      ParseMessage(raw, defaultTimestamp) ==
        ParsedMessage(fields.messageType in {0, 1}, fields.timestamp, fields.body, [])
  {
    assert raw[0] == 'v' && "mms|"[0] == 'm';
    assert !StartsWith(raw, "mms|");
    hide ParseTimestamped;
  }

  lemma MmsMessage(raw: string, defaultTimestamp: int)
    requires StartsWith(raw, "mms|") && ParseTimestamped(raw, "mms|", true, Fields(1, defaultTimestamp, "")).Some?
    ensures var fields := ParseTimestamped(raw, "mms|", true, Fields(1, defaultTimestamp, "")).value;
      ParseMessage(raw, defaultTimestamp) ==
        ParsedMessage(fields.messageType in {0, 1}, fields.timestamp, fields.body, AttachmentTargets(raw))
  {
    assert raw[0] == 'm' && "v2|"[0] == 'v';
    assert !StartsWith(raw, "v2|");
    assert ParseTimestamped(raw, "v2|", false, Fields(1, defaultTimestamp, "")) == None;
    hide ParseTimestamped, AttachmentTargets;
  }

  /** Whatever the body contains, a text message is read as it was written; a timestamp that is not
      positive is replaced by the default. */
  lemma SmsRoundTrip(messageType: int, timestamp: int, body: string, defaultTimestamp: int)
    requires I32(messageType) && I64(timestamp)
    ensures ParseMessage(SmsRecord(messageType, timestamp, body), defaultTimestamp) ==
      ParsedMessage(messageType in {0, 1}, if timestamp > 0 then timestamp else defaultTimestamp, body, [])
  {
    hide Decimal, HasHead, ParseTimestamped, ParseMessage;
    var raw := SmsRecord(messageType, timestamp, body);
    var first := 3 + |Decimal(messageType)|;
    var second := first + 1 + |Decimal(timestamp)|;
    RecordHasHead("v2|", messageType, timestamp, body);
    FieldsOf(raw, "v2|", false, Fields(1, defaultTimestamp, ""), first, second, messageType, timestamp);
    assert raw[second + 1..|raw|] == raw[second + 1..] == body;
    assert StartsWith(raw, "v2|");
    SmsMessage(raw, defaultTimestamp);
  }

  /** An attachment that survives joining and splitting. */
  predicate PlainTarget(s: string) {
    s != "" && '|' !in s && ';' !in s && !RemotePath.IsSpace(s[0]) && !RemotePath.IsSpace(s[|s| - 1])
  }

  lemma {:induction false} JoinIsPlain(targets: seq<string>)
    requires targets != [] && forall t <- targets :: PlainTarget(t)
    ensures var j := Join(targets, ';');
      j != "" && '|' !in j && !RemotePath.IsSpace(j[0]) && !RemotePath.IsSpace(j[|j| - 1])
  {
    assert PlainTarget(targets[0]);
    hide RemotePath.IsSpace;
    if |targets| > 1 {
      JoinIsPlain(targets[1..]);
    }
  }

  lemma {:induction false} SplitJoin(targets: seq<string>)
    requires targets != [] && forall t <- targets :: PlainTarget(t)
    ensures TrimmedParts(SplitNonEmpty(Join(targets, ';'), ';')) == targets
  {
    hide RemotePath.IsSpace, RemotePath.Trimmed;
    var t := targets[0];
    assert PlainTarget(t);
    assert RemotePath.Trimmed(t) == t;
    var s := Join(targets, ';');
    if |targets| == 1 {
      NoIndex(s, ';', 0);
      assert SplitNonEmpty(s, ';') == [t];
      assert [t][1..] == [] && targets == [t];
    } else {
      var rest := Join(targets[1..], ';');
      SplitJoin(targets[1..]);
      assert s == "" + t + ";" + rest;
      IndexAfter("", t, ';', rest);
      assert s[..|t|] == t && s[|t| + 1..] == rest;
      var parts := SplitNonEmpty(rest, ';');
      assert SplitNonEmpty(s, ';') == [t] + parts;
      assert ([t] + parts)[1..] == parts;
      assert targets == [t] + targets[1..];
    }
  }

  /** A message with attachments is read as it was written, and each attachment is found, whatever
      the body contains. */
  lemma MmsRoundTrip(messageType: int, timestamp: int, body: string, attachments: seq<string>, defaultTimestamp: int)
    requires I32(messageType) && I64(timestamp)
    requires attachments != [] && forall t <- attachments :: PlainTarget(t)
    ensures ParseMessage(MmsRecord(messageType, timestamp, body, attachments), defaultTimestamp) ==
      ParsedMessage(messageType in {0, 1}, if timestamp > 0 then timestamp else defaultTimestamp, body, attachments)
  {
    hide RemotePath.IsSpace, RemotePath.Trimmed, Join, SplitNonEmpty, TrimmedParts, Decimal, HasHead, ParseMessage,
      PlainTarget, MmsRecord;
    JoinIsPlain(attachments);
    SplitJoin(attachments);
    var section := Join(attachments, ';');
    assert RemotePath.Trimmed(section) == section;
    var first := 4 + |Decimal(messageType)|;
    var second := first + 1 + |Decimal(timestamp)|;
    RecordHasHead("mms|", messageType, timestamp, body + "|" + section);
    MmsRecordIs(messageType, timestamp, body, attachments);
    MmsParses(MmsRecord(messageType, timestamp, body, attachments), first, second, messageType, timestamp, body,
      section, defaultTimestamp);
  }

  lemma MmsRecordIs(messageType: int, timestamp: int, body: string, attachments: seq<string>)
    ensures MmsRecord(messageType, timestamp, body, attachments) ==
      "mms|" + Decimal(messageType) + "|" + Decimal(timestamp) + "|" + (body + "|" + Join(attachments, ';'))
  {
    hide Decimal, Join;
  }

  lemma HeadIsPrefix(raw: string, prefix: string, first: int, second: int, messageType: int, timestamp: int)
    requires HasHead(raw, prefix, first, second, messageType, timestamp)
    ensures StartsWith(raw, prefix) && 0 <= second < |raw|
  {
  }

  lemma MmsParses(raw: string, first: int, second: int, messageType: int, timestamp: int, body: string, section: string,
                  defaultTimestamp: int)
    requires HasHead(raw, "mms|", first, second, messageType, timestamp)
    requires section != "" && '|' !in section && RemotePath.Trimmed(section) == section
    requires second + 1 + |body| + 1 + |section| == |raw| && raw[second + 1..] == body + "|" + section
    ensures ParseMessage(raw, defaultTimestamp) ==
      ParsedMessage(messageType in {0, 1}, if timestamp > 0 then timestamp else defaultTimestamp, body,
                    TrimmedParts(SplitNonEmpty(section, ';')))
  {
    hide RemotePath.Trimmed, SplitNonEmpty, TrimmedParts, HasHead, ParseTimestamped, ParseMessage, AttachmentTargets,
      LastIndexOf;
    HeadIsPrefix(raw, "mms|", first, second, messageType, timestamp);
    LastSection(raw, body, section);
    FieldsOf(raw, "mms|", true, Fields(1, defaultTimestamp, ""), first, second, messageType, timestamp);
    TargetsOf(raw, first, second, messageType, timestamp);
    MmsMessage(raw, defaultTimestamp);
  }

  /** The last separator of a record that ends with a body and a section. */
  lemma LastSection(raw: string, body: string, section: string)
    requires '|' !in section && |body| + 1 + |section| < |raw|
    requires raw[|raw| - |body| - 1 - |section|..] == body + "|" + section
    ensures var last := |raw| - |section| - 1;
      LastIndexOf(raw, '|') == last && raw[last + 1..] == section && raw[last - |body|..last] == body
  {
    var last, start := |raw| - |section| - 1, |raw| - |body| - 1 - |section|;
    var end := body + "|" + section;
    assert forall i :: 0 <= i < |end| ==> raw[start + i] == end[i];
    assert raw[last] == end[|body|] == '|';
    assert raw[last + 1..] == end[|body| + 1..] == section;
    assert forall j :: last < j < |raw| ==> raw[j] == raw[last + 1..][j - last - 1];
    LastIndexAt(raw, '|', last);
    assert forall i :: 0 <= i < |body| ==> raw[start + i] == body[i];
  }
}
