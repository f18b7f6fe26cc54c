/**
 * The three textual conventions that carry compliance between the controllers: the event name with its
 * hexadecimal nanoseconds, the event reason with the template name, and the message with its compliance prefix.
 */
module EventCodec {
  import opened Text

  // ---------------------------------------------------------------- event names

  const MIN_INT64: int := -0x8000_0000_0000_0000
  const MAX_INT64: int := 0x7FFF_FFFF_FFFF_FFFF

  predicate IsInt64(n: int) {
    MIN_INT64 <= n <= MAX_INT64
  }

  /** time.Time.UnixNano: the low 64 bits of the nanosecond count, as a signed integer. */
  function UnixNano(time: int): (n: int)
    ensures IsInt64(n)
    ensures IsInt64(time) ==> n == time
  {
    (time - MIN_INT64) % 0x1_0000_0000_0000_0000 + MIN_INT64
  }

  function HexDigit(d: nat): char
    requires d < 16
  {
    "0123456789abcdef"[d]
  }

  function FormatNat(n: nat): string {
    if n < 16 then [HexDigit(n)] else FormatNat(n / 16) + [HexDigit(n % 16)]
  }

  /** The verb %x on a signed integer: a minus sign and the digits of the absolute value. */
  function FormatHex(n: int): string {
    if n < 0 then "-" + FormatNat(-n) else FormatNat(n)
  }

  function EventName(owner: string, nanos: int): string {
    owner + "." + FormatHex(nanos)
  }

  function DigitValue(c: char): Option<nat> {
    if '0' <= c <= '9' then Some((c - '0') as nat)
    else if 'a' <= c <= 'f' then Some((c - 'a') as nat + 10)
    else if 'A' <= c <= 'F' then Some((c - 'A') as nat + 10)
    else None
  }

  function ParseNat(s: string): Option<nat> {
    if s == "" then None
    else
      var last := DigitValue(s[|s| - 1]);
      if last.None? then None
      else if |s| == 1 then last
      else
        var front := ParseNat(s[..|s| - 1]);
        if front.None? then None else Some(16 * front.value + last.value)
  }

  /** strconv.ParseInt(s, 16, 64): an optional sign, then digits, rejected outside the 64-bit range. */
  function ParseHex(s: string): Option<int> {
    var signed := s != "" && (s[0] == '-' || s[0] == '+');
    var magnitude := ParseNat(if signed then s[1..] else s);
    if magnitude.None? then None
    else
      var m: int := magnitude.value;
      var n := if signed && s[0] == '-' then -m else m;
      if IsInt64(n) then Some(n) else None
  }

  /** The last element of strings.Split(s, "."). */
  function AfterLastDot(s: string): string {
    if s == "" || s[|s| - 1] == '.' then "" else AfterLastDot(s[..|s| - 1]) + [s[|s| - 1]]
  }

  function ParseTimestamp(name: string): (t: Option<int>)
    ensures t.Some? ==> IsInt64(t.value)
  {
    ParseHex(AfterLastDot(name))
  }

  /** The number that hexadecimal digits stand for. */
  function HexValue(s: string): int {
    if s == "" then 0
    else
      var last := DigitValue(s[|s| - 1]);
      16 * HexValue(s[..|s| - 1]) + if last.Some? then last.value else 0
  }

  lemma {:induction false} ParseNatMeaning(s: string)
    ensures ParseNat(s).Some? <==> s != "" && forall c :: c in s ==> DigitValue(c).Some?
    ensures ParseNat(s).Some? ==> ParseNat(s).value == HexValue(s)
  {
    if |s| > 1 {
      ParseNatMeaning(s[..|s| - 1]);
      assert s == s[..|s| - 1] + [s[|s| - 1]];
    } else if |s| == 1 {
      assert HexValue(s[..0]) == 0;
    }
  }

  /** A name is refused exactly when its last part has no digits, or other characters, or too large a number. */
  lemma ReadableNames(name: string, sign: string, digits: string)
    requires AfterLastDot(name) == sign + digits && sign in {"", "+", "-"}
    requires sign == "" && digits != "" ==> digits[0] !in "+-"
    ensures
      var n := if sign == "-" then -HexValue(digits) else HexValue(digits);
      ParseTimestamp(name) ==
      if digits != "" && (forall c :: c in digits ==> DigitValue(c).Some?) && IsInt64(n) then Some(n) else None
  {
    ParseNatMeaning(digits);
    assert sign != "" ==> (sign + digits)[1..] == digits;
    assert sign == "" ==> sign + digits == digits;
  }

  lemma {:induction false} AppendDigit(front: string, m: nat, d: nat)
    requires ParseNat(front) == Some(m) && front != "" && d < 16
    ensures ParseNat(front + [HexDigit(d)]) == Some(16 * m + d)
  {
    var s := front + [HexDigit(d)];
    assert s[..|s| - 1] == front;
    assert DigitValue(HexDigit(d)) == Some(d);
    hide HexDigit, DigitValue;
  }

  lemma {:induction false} NatRoundTrip(n: nat)
    ensures ParseNat(FormatNat(n)) == Some(n)
    ensures FormatNat(n) != "" && FormatNat(n)[0] !in "+-."
    ensures '.' !in FormatNat(n)
  {
    assert HexDigit(n % 16) !in "+-.";
    if n < 16 {
      assert DigitValue(HexDigit(n)) == Some(n);
    } else {
      NatRoundTrip(n / 16);
      hide HexDigit, DigitValue, ParseNat;
      AppendDigit(FormatNat(n / 16), n / 16, n % 16);
      assert n == 16 * (n / 16) + n % 16;
    }
  }

  lemma {:induction false} AfterLastDotOfSuffix(owner: string, suffix: string)
    requires '.' !in suffix
    ensures AfterLastDot(owner + "." + suffix) == suffix
  {
    var s := owner + "." + suffix;
    if suffix != "" {
      var front := suffix[..|suffix| - 1];
      AfterLastDotOfSuffix(owner, front);
      assert s[..|s| - 1] == owner + "." + front;
      assert front + [suffix[|suffix| - 1]] == suffix;
    }
  }

  lemma {:induction false} ParseSigned(digits: string, m: int)
    requires m >= 0 && ParseNat(digits) == Some(m) && digits != "" && digits[0] !in "+-."
    ensures IsInt64(m) ==> ParseHex(digits) == Some(m)
    ensures IsInt64(-m) ==> ParseHex("-" + digits) == Some(-m)
  {
    var signed := "-" + digits;
    assert signed[1..] == digits;
  }

  lemma {:induction false} HexRoundTrip(n: int)
    requires IsInt64(n)
    ensures ParseHex(FormatHex(n)) == Some(n)
    ensures '.' !in FormatHex(n)
  {
    var m: nat := if n < 0 then -n else n;
    NatRoundTrip(m);
    ParseSigned(FormatNat(m), m);
  }

  /** Reading an event name returns the nanosecond count it was written with, whatever the policy's name. */
  lemma {:induction false} EventNameRoundTrip(owner: string, nanos: int)
    requires IsInt64(nanos)
    ensures ParseTimestamp(EventName(owner, nanos)) == Some(nanos)
  {
    HexRoundTrip(nanos);
    AfterLastDotOfSuffix(owner, FormatHex(nanos));
  }

  // ---------------------------------------------------------------- event reasons

  /** EventReason: the namespace and a slash are left out for a cluster-scoped template. */
  function EventReason(ns: string, name: string): string {
    if ns == "" then "policy: " + name else "policy: " + ns + "/" + name
  }

  /** \s of the regular expression syntax. */
  predicate IsReSpace(c: char) {
    c == '\t' || c == '\n' || c == '\U{0C}' || c == '\r' || c == ' '
  }

  /** [a-z0-9.-] without regard to case; folding adds the long s and the Kelvin sign. */
  predicate IsNamespaceChar(c: char) {
    || 'a' <= c <= 'z' || 'A' <= c <= 'Z' || '0' <= c <= '9' || c == '.' || c == '-'
    || c == '\U{017F}' || c == '\U{212A}'
  }

  function SpaceRun(s: string): (n: nat)
    ensures n <= |s| && (forall i :: 0 <= i < n ==> IsReSpace(s[i])) && (n < |s| ==> !IsReSpace(s[n]))
  {
    if s == "" || !IsReSpace(s[0]) then 0 else 1 + SpaceRun(s[1..])
  }

  function NamespaceRun(s: string): (n: nat)
    ensures n <= |s| && (forall i :: 0 <= i < n ==> IsNamespaceChar(s[i])) && (n < |s| ==> !IsNamespaceChar(s[n]))
  {
    if s == "" || !IsNamespaceChar(s[0]) then 0 else 1 + NamespaceRun(s[1..])
  }

  function LineRun(s: string): (n: nat)
    ensures n <= |s| && (forall i :: 0 <= i < n ==> s[i] != '\n') && (n < |s| ==> s[n] == '\n')
  {
    if s == "" || s[0] == '\n' then 0 else 1 + LineRun(s[1..])
  }

  /** (.+) */
  function RestOfLine(s: string): Option<string> {
    if LineRun(s) == 0 then None else Some(s[..LineRun(s)])
  }

  /** \s*\/(.+), giving back spaces one at a time from the longest run. */
  function MatchSlash(s: string, spaces: nat): Option<string>
    requires spaces <= |s|
  {
    if spaces < |s| && s[spaces] == '/' && RestOfLine(s[spaces + 1..]).Some? then RestOfLine(s[spaces + 1..])
    else if spaces == 0 then None
    else MatchSlash(s, spaces - 1)
  }

  /** ([a-z0-9.-]+)\s*\/(.+), giving back namespace characters one at a time from the longest run. */
  function MatchQualified(s: string, run: nat): Option<string>
    requires run <= |s|
  {
    if run == 0 then None
    else
      var tail := s[run..];
      var name := MatchSlash(tail, SpaceRun(tail));
      if name.Some? then name else MatchQualified(s, run - 1)
  }

  /** (?:([a-z0-9.-]+)\s*\/)?(.+), the qualified form preferred. */
  function MatchName(s: string): Option<string> {
    var qualified := MatchQualified(s, NamespaceRun(s));
    if qualified.Some? then qualified else RestOfLine(s)
  }

  /** \s*(?:([a-z0-9.-]+)\s*\/)?(.+), giving back leading spaces one at a time. */
  function MatchSpaced(s: string, spaces: nat): Option<string>
    requires spaces <= |s|
  {
    var name := MatchName(s[spaces..]);
    if name.Some? || spaces == 0 then name else MatchSpaced(s, spaces - 1)
  }

  /** (?i)^policy: where no letter of the word folds to anything but its other case. */
  predicate HasPolicyPrefix(reason: string) {
    7 <= |reason| && forall i :: 0 <= i < 7 ==> reason[i] == "policy:"[i] || reason[i] == "POLICY:"[i]
  }

  /** The second group of (?i)^policy:\s*(?:([a-z0-9.-]+)\s*\/)?(.+) under leftmost-first matching. */
  function TemplateNameOf(reason: string): Option<string> {
    if !HasPolicyPrefix(reason) then None
    else MatchSpaced(reason[7..], SpaceRun(reason[7..]))
  }

  /** The reader would take the front of an unqualified name for a namespace. */
  predicate LooksQualified(name: string) {
    var run := NamespaceRun(name);
    var slash := run + SpaceRun(name[run..]);
    run > 0 && slash + 1 < |name| && name[slash] == '/'
  }

  /** The names that survive the trip through an event reason, for a given namespace. */
  predicate SurvivesReason(ns: string, name: string) {
    && name != "" && '\n' !in name
    && (ns == "" ==> (|name| == 1 || !IsReSpace(name[0])) && !LooksQualified(name))
  }

  /** Backtracking never helps: only the longest runs can reach the slash. */
  lemma {:induction false} SlashNeedsFullRun(s: string, spaces: nat)
    requires spaces < |s| && forall i :: 0 <= i <= spaces ==> IsReSpace(s[i])
    ensures MatchSlash(s, spaces).None?
  {
    if spaces > 0 { SlashNeedsFullRun(s, spaces - 1); }
  }

  lemma {:induction false} MatchSlashMeaning(s: string, n: nat)
    requires n == SpaceRun(s)
    ensures MatchSlash(s, n) == if n < |s| && s[n] == '/' then RestOfLine(s[n + 1..]) else None
  {
    hide SpaceRun, NamespaceRun, LineRun, RestOfLine;
    if n > 0 { SlashNeedsFullRun(s, n - 1); }
  }

  lemma {:induction false} QualifiedNeedsFullRun(s: string, run: nat)
    requires run < |s| && forall i :: 0 <= i <= run ==> IsNamespaceChar(s[i])
    ensures MatchQualified(s, run).None?
  {
    hide SpaceRun, NamespaceRun, LineRun, RestOfLine;
    if run > 0 {
      var tail := s[run..];
      assert IsNamespaceChar(tail[0]);
      MatchSlashMeaning(tail, SpaceRun(tail));
      QualifiedNeedsFullRun(s, run - 1);
    }
  }

  lemma {:induction false} MatchQualifiedMeaning(s: string, run: nat, slash: nat)
    requires run == NamespaceRun(s) && slash == run + SpaceRun(s[run..])
    ensures
      MatchQualified(s, run) ==
      if run > 0 && slash < |s| && s[slash] == '/' then RestOfLine(s[slash + 1..]) else None
  {
    hide SpaceRun, NamespaceRun, LineRun, RestOfLine;
    if run > 0 {
      var tail := s[run..];
      MatchSlashMeaning(tail, slash - run);
      if slash < |s| { assert tail[slash - run + 1..] == s[slash + 1..]; }
      QualifiedNeedsFullRun(s, run - 1);
    }
  }

  lemma {:induction false} RestOfLineIsAll(s: string)
    ensures RestOfLine(s) == Some(s) <==> s != "" && '\n' !in s
    ensures RestOfLine(s).Some? <==> s != "" && s[0] != '\n'
    ensures RestOfLine(s).Some? ==> RestOfLine(s).value <= s && RestOfLine(s).value != ""
  {
    hide SpaceRun, NamespaceRun, LineRun;
    var n := LineRun(s);
    if n == |s| {
      assert s[..n] == s;
    } else {
      assert s[n] in s;
    }
  }

  lemma {:induction false} MatchNameMeaning(s: string, run: nat, slash: nat)
    requires run == NamespaceRun(s) && slash == run + SpaceRun(s[run..])
    ensures
      var qualified := run > 0 && slash + 1 < |s| && s[slash] == '/' && s[slash + 1] != '\n';
      MatchName(s) == if qualified then RestOfLine(s[slash + 1..]) else RestOfLine(s)
    ensures MatchName(s).Some? <==> s != "" && s[0] != '\n'
    ensures MatchName(s).Some? ==> |MatchName(s).value| <= |s|
  {
    hide SpaceRun, NamespaceRun, LineRun;
    MatchQualifiedMeaning(s, run, slash);
    RestOfLineIsAll(s);
    if slash < |s| { RestOfLineIsAll(s[slash + 1..]); }
  }

  lemma {:induction false} NamespaceRunOf(ns: string, rest: string)
    requires forall c :: c in ns ==> IsNamespaceChar(c)
    requires rest != "" && !IsNamespaceChar(rest[0])
    ensures NamespaceRun(ns + rest) == |ns|
  {
    hide SpaceRun, NamespaceRun, LineRun;
    var s := ns + rest;
    assert forall i :: 0 <= i < |ns| ==> s[i] == ns[i] && ns[i] in ns;
    assert s[|ns|] == rest[0];
  }

  lemma {:induction false} MatchQualifiedName(ns: string, name: string)
    requires ns != "" && forall c :: c in ns ==> IsNamespaceChar(c)
    ensures MatchName(ns + "/" + name) == Some(name) <==> name != "" && '\n' !in name
    ensures MatchName(ns + "/" + name).Some?
  {
    hide SpaceRun, NamespaceRun, LineRun, MatchName;
    var s := ns + "/" + name;
    assert s == ns + ("/" + name);
    NamespaceRunOf(ns, "/" + name);
    assert s[|ns|..] == "/" + name;
    assert ns[0] in ns && s[0] == ns[0];
    MatchNameMeaning(s, |ns|, |ns|);
    assert s[|ns| + 1..] == name;
    RestOfLineIsAll(name);
    RestOfLineIsAll(s);
  }

  lemma {:induction false} MatchVisibleName(name: string)
    requires name != "" && !IsReSpace(name[0])
    ensures MatchName(name) == Some(name) <==> SurvivesReason("", name)
    ensures MatchName(name).Some? && |MatchName(name).value| <= |name|
  {
    hide SpaceRun, NamespaceRun, LineRun, MatchName;
    var run := NamespaceRun(name);
    var slash := run + SpaceRun(name[run..]);
    MatchNameMeaning(name, run, slash);
    RestOfLineIsAll(name);
    if slash + 1 < |name| {
      RestOfLineIsAll(name[slash + 1..]);
      assert name[slash + 1] in name;
    }
  }

  lemma {:induction false} MatchSpacedName(spaces: string, s: string)
    requires forall c :: c in spaces ==> IsReSpace(c)
    requires s != "" && !IsReSpace(s[0]) && MatchName(s).Some?
    ensures MatchSpaced(spaces + s, SpaceRun(spaces + s)) == MatchName(s)
  {
    hide SpaceRun, NamespaceRun, LineRun, MatchName;
    var t := spaces + s;
    assert forall i :: 0 <= i < |spaces| ==> t[i] == spaces[i] && spaces[i] in spaces;
    assert t[|spaces|] == s[0];
    assert SpaceRun(t) == |spaces|;
    assert t[|spaces|..] == s;
  }

  /** With spaces only, the name starts at the last space that is not a newline, and ends there. */
  lemma {:induction false} MatchSpacesOnly(s: string, k: nat)
    requires k < |s| && s[0] == ' ' && forall i :: 0 <= i < |s| ==> IsReSpace(s[i])
    requires forall i :: k < i < |s| ==> s[i] == '\n'
    ensures MatchSpaced(s, k).Some? && |MatchSpaced(s, k).value| == 1
    ensures s[k] != '\n' ==> MatchSpaced(s, k) == Some([s[k]])
    ensures MatchSpaced(s, k).value[0] != '\n'
  {
    hide SpaceRun, NamespaceRun, LineRun;
    var r := s[k..];
    assert IsReSpace(r[0]);
    MatchNameMeaning(r, 0, SpaceRun(r[0..]));
    if s[k] == '\n' {
      MatchSpacesOnly(s, k - 1);
    } else {
      assert |r| > 1 ==> r[1] == '\n';
      assert LineRun(r) == 1;
      assert r[..1] == [s[k]];
    }
  }

  lemma {:induction false} MatchBlankName(name: string)
    requires forall c :: c in name ==> IsReSpace(c)
    ensures MatchSpaced(" " + name, SpaceRun(" " + name)) == Some(name) <==> SurvivesReason("", name)
  {
    hide SpaceRun, NamespaceRun, LineRun, MatchName;
    var s := " " + name;
    assert forall i :: 0 < i < |s| ==> s[i] == name[i - 1] && name[i - 1] in name;
    assert SpaceRun(s) == |s|;
    assert s[|s|..] == "";
    MatchNameMeaning("", 0, 0);
    assert MatchSpaced(s, |s|) == MatchSpaced(s, |s| - 1);
    MatchSpacesOnly(s, |s| - 1);
    if |name| == 1 {
      assert name == [s[1]];
      assert !LooksQualified(name) by { assert !IsNamespaceChar(name[0]); }
    }
  }

  lemma {:induction false} LeadingSpaces(s: string) returns (spaces: string, rest: string)
    ensures s == spaces + rest && forall c :: c in spaces ==> IsReSpace(c)
    ensures rest == "" || !IsReSpace(rest[0])
  {
    hide SpaceRun, NamespaceRun, LineRun;
    var n := SpaceRun(s);
    spaces, rest := s[..n], s[n..];
  }

  lemma {:induction false} ReadReason(body: string)
    ensures TemplateNameOf("policy:" + body) == MatchSpaced(body, SpaceRun(body))
  {
    var reason := "policy:" + body;
    assert reason[..7] == "policy:" && reason[7..] == body;
  }

  lemma {:induction false} MatchAfterSpaces(spaces: string, rest: string)
    requires forall c :: c in spaces ==> IsReSpace(c)
    requires rest != "" && !IsReSpace(rest[0])
    ensures
      var s := " " + (spaces + rest);
      MatchSpaced(s, SpaceRun(s)) == MatchName(rest)
  {
    hide SpaceRun, NamespaceRun, LineRun, MatchName;
    MatchVisibleName(rest);
    assert forall c :: c in " " + spaces ==> c == ' ' || c in spaces;
    MatchSpacedName(" " + spaces, rest);
    assert " " + spaces + rest == " " + (spaces + rest);
  }

  lemma {:induction false} MatchUnqualified(name: string)
    ensures MatchSpaced(" " + name, SpaceRun(" " + name)) == Some(name) <==> SurvivesReason("", name)
  {
    hide SpaceRun, NamespaceRun, LineRun, MatchName;
    var spaces, rest := LeadingSpaces(name);
    if rest == "" {
      assert name == spaces;
      MatchBlankName(name);
    } else {
      MatchVisibleName(rest);
      MatchAfterSpaces(spaces, rest);
      if spaces == "" {
        assert rest == name;
      } else {
        assert spaces[0] in spaces && name[0] == spaces[0];
        assert |rest| < |name|;
      }
    }
  }

  /**
   * The reader's regular expression recovers the template name printed by EventReason exactly when
   * SurvivesReason holds. A namespace protects a name from being split at a slash or losing its first space.
   */
  lemma {:induction false} ReasonRoundTrip(ns: string, name: string)
    requires forall c :: c in ns ==> IsNamespaceChar(c)
    ensures TemplateNameOf(EventReason(ns, name)) == Some(name) <==> SurvivesReason(ns, name)
  {
    hide SpaceRun, NamespaceRun, LineRun, MatchName;
    if ns != "" {
      var body := ns + "/" + name;
      assert EventReason(ns, name) == "policy:" + (" " + body);
      MatchQualifiedName(ns, name);
      assert ns[0] in ns && body[0] == ns[0];
      MatchSpacedName(" ", body);
      ReadReason(" " + body);
    } else {
      assert EventReason(ns, name) == "policy:" + (" " + name);
      ReadReason(" " + name);
      MatchUnqualified(name);
    }
  }

  /** Two templates whose names survive never share a history bucket. */
  lemma {:induction false} DistinctNamesDistinctBuckets(ns1: string, name1: string, ns2: string, name2: string)
    requires forall c :: c in ns1 + ns2 ==> IsNamespaceChar(c)
    requires SurvivesReason(ns1, name1) && SurvivesReason(ns2, name2) && name1 != name2
    ensures TemplateNameOf(EventReason(ns1, name1)) != TemplateNameOf(EventReason(ns2, name2))
  {
    assert forall c :: c in ns1 ==> c in ns1 + ns2;
    assert forall c :: c in ns2 ==> c in ns1 + ns2;
    ReasonRoundTrip(ns1, name1);
    ReasonRoundTrip(ns2, name2);
  }

  // ---------------------------------------------------------------- compliance messages

  datatype Compliance = Compliant | NonCompliant | Pending | Unknown

  function ComplianceText(c: Compliance): string {
    match c
    case Compliant => "Compliant"
    case NonCompliant => "NonCompliant"
    case Pending => "Pending"
    case Unknown => ""
  }

  const COMBINED := "(combined from similar events):"

  /** The message SendEvent puts in an event. */
  function ComplianceMessage(c: Compliance, msg: string): string {
    ComplianceText(c) + "; " + msg
  }

  /** The message as getEventsInCluster records it. */
  function RecordedMessage(message: string): string {
    TrimSpace(TrimPrefix(message, COMBINED))
  }

  function ParseCompliance(message: string): Compliance {
    var clean := ToLower(RecordedMessage(message));
    if "compliant" <= clean then Compliant else if "pending" <= clean then Pending else NonCompliant
  }

  lemma {:induction false} RecordedPrefix(c: Compliance, message: string)
    requires c != Unknown && ComplianceText(c) + ";" <= message
    ensures RecordedMessage(message) == TrimRight(message)
    ensures ComplianceText(c) + ";" <= RecordedMessage(message) <= message
  {
    var prefix := ComplianceText(c) + ";";
    assert message[0] == prefix[0] != COMBINED[0];
    assert TrimPrefix(message, COMBINED) == message;
    assert TrimLeft(message) == message;
    TrimSpaceKeepsPrefix(prefix, message);
    TrimRightPrefix(message);
  }

  lemma {:induction false} ReadsPrefix(c: Compliance, clean: string)
    requires c != Unknown && ToLower(ComplianceText(c)) <= clean
    ensures c == if "compliant" <= clean then Compliant else if "pending" <= clean then Pending else NonCompliant
  {
    var low := ToLower(ComplianceText(c));
    assert low[0] == clean[0];
    match c {
      case Compliant => assert low == "compliant";
      case Pending => assert low == "pending";
      case NonCompliant => assert low == "noncompliant";
    }
  }

  /** A message that starts with a compliance and a semicolon is read as that compliance. */
  lemma ParsesPrefix(c: Compliance, message: string)
    requires c != Unknown && ComplianceText(c) + ";" <= message
    ensures ParseCompliance(message) == c
  {
    RecordedPrefix(c, message);
    var clean := RecordedMessage(message);
    assert ComplianceText(c) <= ComplianceText(c) + ";" <= clean;
    ReadsPrefix(c, ToLower(clean));
  }

  /** What SendEvent was asked to report is what the recorded message is read as. */
  lemma {:induction false} ComplianceRoundTrip(c: Compliance, msg: string)
    requires c != Unknown
    ensures
      var recorded := RecordedMessage(ComplianceMessage(c, msg));
      && ParseCompliance(recorded) == c
      && recorded == TrimRight(ComplianceMessage(c, msg))
      && recorded <= ComplianceMessage(c, msg)
  {
    var message := ComplianceMessage(c, msg);
    assert message == ComplianceText(c) + ";" + (" " + msg);
    RecordedPrefix(c, message);
    var recorded := RecordedMessage(message);
    RecordedPrefix(c, recorded);
    var again := RecordedMessage(recorded);
    assert ComplianceText(c) <= ComplianceText(c) + ";" <= again;
    ReadsPrefix(c, ToLower(again));
  }
}
