/** WriteSettings and ParseSettings of settings.c: what is written is read back. */
module SettingsFile {
  import opened Common
  import opened SettingsText

  /** The part of struct RuntimeData that is kept; flags are C ints, the link mode a short. */
  datatype Settings = Settings(
    sortTitles: int, useDHCP: int, ipAddress: seq<Byte>, subnetMask: seq<Byte>, gateway: seq<Byte>,
    advancedNetworkSettings: int, ethernetLinkMode: int, ethernetFlowControl: int)

  predicate WellFormed(s: Settings) {
    |s.ipAddress| == |s.subnetMask| == |s.gateway| == 4 && -0x8000 <= s.ethernetLinkMode < 0x8000
  }

  /** The flags are 0 or 1. */
  predicate PlainFlags(s: Settings) {
    && 0 <= s.sortTitles <= 1 && 0 <= s.useDHCP <= 1
    && 0 <= s.advancedNetworkSettings <= 1 && 0 <= s.ethernetFlowControl <= 1
  }

  // ---------------------------------------------------------------- printing

  function WriteBoolean(value: int): string {
    if value != 0 then "true" else "false"
  }

  function Quad(a: seq<Byte>): string
    requires |a| == 4
  {
    Dec(a[0] as nat) + ("." + (Dec(a[1] as nat) + ("." + (Dec(a[2] as nat) + ("." + Dec(a[3] as nat))))))
  }

  /** The lines as key and value. */
  function Pairs(s: Settings): (r: seq<(string, string)>)
    requires WellFormed(s)
    ensures |r| == 8
  {
    [("SORT", WriteBoolean(s.sortTitles)), ("DHCP", WriteBoolean(s.useDHCP)), ("IP", Quad(s.ipAddress)),
     ("NM", Quad(s.subnetMask)), ("GW", Quad(s.gateway)), ("ADVNETWORK", WriteBoolean(s.advancedNetworkSettings)),
     ("LINKMODE", Signed(s.ethernetLinkMode)), ("FLOWCTRL", WriteBoolean(s.ethernetFlowControl))]
  }

  function Printed(pairs: seq<(string, string)>): string {
    if |pairs| == 0 then "" else pairs[0].0 + " = " + pairs[0].1 + "\n" + Printed(pairs[1..])
  }

  // ---------------------------------------------------------------- parsing

  /** strtok with \r and \n. */
  function Lines(t: string): seq<string>
    decreases |t|
  {
    if |t| == 0 then []
    else if IsBreak(t[0]) then Lines(t[1..])
    else
      var j := Skip(t, 0, c => !IsBreak(c));
      [t[..j]] + Lines(t[j..])
  }

  datatype Split = NoEquals | Pair(key: string, value: string)

  /** Where the characters of one kind end. */
  function Past(line: string, i: nat, p: char -> bool): (j: nat)
    requires i <= |line|
    ensures i <= j <= |line|
  {
    Skip(line, i, p)
  }

  /** Key and value of a line. */
  function SplitLine(line: string): Split {
    var key := Past(line, 0, IsSpace);
    var keyEnd := Past(line, key, IsAlnum);
    var equals := Past(line, keyEnd, IsSpace);
    if equals == |line| || line[equals] != '=' then NoEquals
    else
      var value := Past(line, equals + 1, IsSpace);
      Pair(line[key..keyEnd], line[value..Past(line, value, IsGraph)])
  }

  /** The cast to unsigned char. */
  function Octet(n: nat): Byte {
    (n % 256) as Byte
  }

  datatype Dotted = NoDot | Dotted(octet: Byte, rest: string)

  /** A number and the dot behind it. */
  function OctetDot(t: string): Dotted {
    var n := StrToUl(t);
    if n.1 < |t| && t[n.1] == '.' then Dotted(Octet(n.0), t[n.1 + 1..]) else NoDot
  }

  /** ParseNetAddr: the four octets, each cut to 8 bits, or nothing. */
  function NetAddr(value: string): (r: seq<Byte>)
    ensures |r| == 4 || r == []
  {
    match OctetDot(value)
    case NoDot => []
    case Dotted(o1, v2) =>
      match OctetDot(v2)
      case NoDot => []
      case Dotted(o2, v3) =>
        match OctetDot(v3)
        case NoDot => []
        case Dotted(o3, v4) => [o1, o2, o3, Octet(StrToUl(v4).0)]
  }

  datatype Flag = On | Off | Unreadable

  function ReadFlag(value: string): Flag {
    if value == "true" then On else if value == "false" then Off else Unreadable
  }

  function FlagValue(f: Flag): int {
    if f.On? then 1 else 0
  }

  /** ParseLine: the settings with one of them assigned, or an error. */
  function Assign(s: Settings, key: string, value: string): (int, Settings) {
    if key == "SORT" then
      if ReadFlag(value).Unreadable? then (-EINVAL, s) else (0, s.(sortTitles := FlagValue(ReadFlag(value))))
    else if key == "DHCP" then
      if ReadFlag(value).Unreadable? then (-EINVAL, s) else (0, s.(useDHCP := FlagValue(ReadFlag(value))))
    else if key == "IP" then
      if NetAddr(value) == [] then (-EINVAL, s) else (0, s.(ipAddress := NetAddr(value)))
    else if key == "NM" then
      if NetAddr(value) == [] then (-EINVAL, s) else (0, s.(subnetMask := NetAddr(value)))
    else if key == "GW" then
      if NetAddr(value) == [] then (-EINVAL, s) else (0, s.(gateway := NetAddr(value)))
    else if key == "ADVNETWORK" then
      if ReadFlag(value).Unreadable? then (-EINVAL, s)
      else (0, s.(advancedNetworkSettings := FlagValue(ReadFlag(value))))
    else if key == "LINKMODE" then (0, s.(ethernetLinkMode := S16(StrToL(value))))
    else if key == "FLOWCTRL" then
      if ReadFlag(value).Unreadable? then (-EINVAL, s) else (0, s.(ethernetFlowControl := FlagValue(ReadFlag(value))))
    else (-EINVAL, s)
  }

  /** The lines one by one, up to the first that cannot be read. */
  function AssignLines(s: Settings, lines: seq<string>): (int, Settings)
    decreases |lines|
  {
    if |lines| == 0 then (0, s)
    else
      match SplitLine(lines[0])
      case NoEquals => (-1, s)
      case Pair(key, value) =>
        var (result, t) := Assign(s, key, value);
        if result != 0 then (result, t) else AssignLines(t, lines[1..])
  }

  // ---------------------------------------------------------------- reading back what was printed

  predicate Word(t: string, p: char -> bool) {
    |t| > 0 && forall k :: 0 <= k < |t| ==> p(t[k])
  }

  lemma SplitAt(line: string, n: nat)
    requires 0 < n && n + 3 < |line|
    requires forall k :: 0 <= k < n ==> IsAlnum(line[k])
    requires line[n] == ' ' && line[n + 1] == '=' && line[n + 2] == ' '
    requires forall k :: n + 3 <= k < |line| ==> IsGraph(line[k])
    ensures SplitLine(line) == Pair(line[..n], line[n + 3..])
  {
    SkipIs(line, 0, 0, IsSpace);
    SkipIs(line, 0, n, IsAlnum);
    SkipIs(line, n, n + 1, IsSpace);
    SkipIs(line, n + 2, n + 3, IsSpace);
    SkipIs(line, n + 3, |line|, IsGraph);
  }

  /** Where key and value of a line stand: space, key, space, the equals sign, space, value, and whatever follows. */
  predicate Spelled(line: string, key: nat, keyEnd: nat, equals: nat, value: nat, end: nat) {
    && key <= keyEnd <= equals < value <= end <= |line| && line[equals] == '='
    && (forall k :: 0 <= k < key ==> IsSpace(line[k]))
    && (forall k :: key <= k < keyEnd ==> IsAlnum(line[k]))
    && (forall k :: keyEnd <= k < equals ==> IsSpace(line[k]))
    && (forall k :: equals < k < value ==> IsSpace(line[k])) && (value < |line| ==> !IsSpace(line[value]))
    && (forall k :: value <= k < end ==> IsGraph(line[k])) && (end < |line| ==> !IsGraph(line[end]))
  }

  /** A line has a key and a value exactly when it can be read like that, and then there is no other way to. */
  lemma SplitsIff(line: string)
    ensures SplitLine(line).Pair? <==> exists key: nat, keyEnd: nat, equals: nat, value: nat, end: nat ::
              Spelled(line, key, keyEnd, equals, value, end)
    ensures forall key: nat, keyEnd: nat, equals: nat, value: nat, end: nat ::
      Spelled(line, key, keyEnd, equals, value, end) ==> SplitLine(line) == Pair(line[key..keyEnd], line[value..end])
  {
    hide IsSpace, IsAlnum, IsGraph;
    KindsDiffer(line);
    if SplitLine(line).Pair? {
      var key := Past(line, 0, IsSpace);
      var keyEnd := Past(line, key, IsAlnum);
      var equals := Past(line, keyEnd, IsSpace);
      var value := Past(line, equals + 1, IsSpace);
      assert Spelled(line, key, keyEnd, equals, value, Past(line, value, IsGraph));
    }
    forall key: nat, keyEnd: nat, equals: nat, value: nat, end: nat | Spelled(line, key, keyEnd, equals, value, end)
      ensures SplitLine(line) == Pair(line[key..keyEnd], line[value..end])
    {
      SpelledSplits(line, key, keyEnd, equals, value, end);
    }
  }

  lemma SpelledSplits(line: string, key: nat, keyEnd: nat, equals: nat, value: nat, end: nat)
    requires Spelled(line, key, keyEnd, equals, value, end)
    ensures SplitLine(line) == Pair(line[key..keyEnd], line[value..end])
  {
    hide IsSpace, IsAlnum, IsGraph, Past;
    KeyCrossed(line, key, keyEnd, equals);
    ValueCrossed(line, equals, value, end);
  }

  lemma KeyCrossed(line: string, key: nat, keyEnd: nat, equals: nat)
    requires key <= keyEnd <= equals < |line| && line[equals] == '='
    requires forall k :: 0 <= k < key ==> IsSpace(line[k])
    requires forall k :: key <= k < keyEnd ==> IsAlnum(line[k])
    requires forall k :: keyEnd <= k < equals ==> IsSpace(line[k])
    ensures var from := Past(line, 0, IsSpace);
            var to := Past(line, from, IsAlnum);
            Past(line, to, IsSpace) == equals && line[from..to] == line[key..keyEnd]
  {
    hide IsSpace, IsAlnum;
    KindsDiffer(line);
    if key < keyEnd {
      SkipIs(line, 0, key, IsSpace);
      SkipIs(line, key, keyEnd, IsAlnum);
      SkipIs(line, keyEnd, equals, IsSpace);
    } else {
      SkipIs(line, 0, equals, IsSpace);
      SkipIs(line, equals, equals, IsAlnum);
      SkipIs(line, equals, equals, IsSpace);
    }
  }

  lemma ValueCrossed(line: string, equals: nat, value: nat, end: nat)
    requires equals < value <= end <= |line|
    requires (forall k :: equals < k < value ==> IsSpace(line[k])) && (value < |line| ==> !IsSpace(line[value]))
    requires (forall k :: value <= k < end ==> IsGraph(line[k])) && (end < |line| ==> !IsGraph(line[end]))
    ensures Past(line, equals + 1, IsSpace) == value && Past(line, value, IsGraph) == end
  {
    hide IsSpace, IsGraph;
    SkipIs(line, equals + 1, value, IsSpace);
    SkipIs(line, value, end, IsGraph);
  }

  lemma KindsDiffer(line: string)
    ensures forall k :: 0 <= k < |line| && IsSpace(line[k]) ==> !IsAlnum(line[k]) && line[k] != '='
    ensures forall k :: 0 <= k < |line| && line[k] == '=' ==> !IsAlnum(line[k])
  {
  }

  /** A line of the buffer: as long as there is no break, and not empty. */
  predicate IsLine(t: string, i: nat, j: nat) {
    && i < j <= |t| && (forall k :: i <= k < j ==> !IsBreak(t[k]))
    && (i > 0 ==> IsBreak(t[i - 1])) && (j < |t| ==> IsBreak(t[j]))
  }

  /** The lines are all there are, between breaks of either kind and any number. */
  lemma LinesAreAll(t: string, s: string)
    ensures s in Lines(t) <==> exists i: nat, j: nat :: IsLine(t, i, j) && t[i..j] == s
  {
    assert t[0..] == t;
    LinesFrom(t, 0, s);
  }

  lemma {:induction false} LinesFrom(t: string, k: nat, s: string)
    requires k <= |t| && (k == 0 || IsBreak(t[k - 1]) || k == |t| || IsBreak(t[k]))
    ensures s in Lines(t[k..]) <==> HasLine(t, k, s)
    decreases |t| - k
  {
    hide IsBreak, HasLine, Lines;
    if k == |t| {
      NoLines(t);
      NoLineLeft(t, s);
    } else if IsBreak(t[k]) {
      LinesSkipBreak(t, k);
      LinesFrom(t, k + 1, s);
      LineBehindBreak(t, k, s);
    } else {
      var j := Skip(t, k, c => !IsBreak(c));
      LinesTake(t, k, j);
      LinesFrom(t, j, s);
      LineOrLater(t, k, j, s);
    }
  }

  /** `s` is a line from place `k` on. */
  ghost predicate HasLine(t: string, k: nat, s: string) {
    exists i: nat, j: nat :: k <= i && IsLine(t, i, j) && t[i..j] == s
  }

  lemma NoLineLeft(t: string, s: string)
    ensures !HasLine(t, |t|, s)
  {
  }

  lemma LineBehindBreak(t: string, k: nat, s: string)
    requires k < |t| && IsBreak(t[k])
    ensures HasLine(t, k, s) <==> HasLine(t, k + 1, s)
  {
  }

  lemma LineOrLater(t: string, k: nat, e: nat, s: string)
    requires IsLine(t, k, e)
    ensures HasLine(t, k, s) <==> t[k..e] == s || HasLine(t, e, s)
  {
    hide IsBreak;
    if i: nat, j: nat :| k <= i && IsLine(t, i, j) && t[i..j] == s {
      if i < e {
        assert i == k;
        assert e == j;
      }
    }
  }

  /** The value can be read for the key. */
  predicate Readable(key: string, value: string) {
    || ((key == "SORT" || key == "DHCP" || key == "ADVNETWORK" || key == "FLOWCTRL")
        && (value == "true" || value == "false"))
    || ((key == "IP" || key == "NM" || key == "GW") && NetAddr(value) != [])
    || key == "LINKMODE"
  }

  /** A line assigns something exactly when its value can be read for its key, and otherwise nothing. */
  lemma AssignsIff(s: Settings, key: string, value: string)
    ensures var (result, t) := Assign(s, key, value);
            (result == 0 <==> Readable(key, value)) && (result != 0 ==> result == -EINVAL && t == s)
  {
    hide NetAddr, StrToL, S16;
  }

  /** An unreadable line ends the reading, and those before it count. */
  lemma {:induction false} AssignInTurn(s: Settings, first: seq<string>, rest: seq<string>)
    ensures var (result, t) := AssignLines(s, first);
            AssignLines(s, first + rest) == if result != 0 then (result, t) else AssignLines(t, rest)
    decreases |first|
  {
    hide Assign, SplitLine;
    if |first| == 0 {
      assert first + rest == rest;
    } else {
      assert (first + rest)[1..] == first[1..] + rest;
      match SplitLine(first[0])
      case NoEquals =>
      case Pair(key, value) =>
        AssignInTurn(Assign(s, key, value).1, first[1..], rest);
    }
  }

  lemma SplitPrinted(key: string, value: string)
    requires Word(key, IsAlnum) && Word(value, IsGraph)
    ensures SplitLine(key + " = " + value) == Pair(key, value)
  {
    hide SplitLine, IsAlnum, IsGraph;
    var line, n := key + " = " + value, |key|;
    assert line[..n] == key && line[n..n + 3] == " = " && line[n + 3..] == value;
    assert line[n] == line[n..n + 3][0] && line[n + 1] == line[n..n + 3][1] && line[n + 2] == line[n..n + 3][2];
    assert forall k :: 0 <= k < n ==> line[k] == key[k];
    forall k | n + 3 <= k < |line| ensures IsGraph(line[k]) {
      assert line[k] == value[k - (n + 3)];
    }
    SplitAt(line, n);
  }

  lemma LinesPrinted(line: string, rest: string)
    requires Word(line, c => !IsBreak(c))
    ensures Lines(line + "\n" + rest) == [line] + Lines(rest)
  {
    var t := line + "\n" + rest;
    assert t[..|line|] == line && t[|line|] == '\n';
    assert forall k :: 0 <= k < |line| ==> t[k] == line[k];
    SkipIs(t, 0, |line|, c => !IsBreak(c));
    assert t[|line|..][1..] == rest;
    assert Lines(t[|line|..]) == Lines(rest);
  }

  lemma QuadIsWord(a: seq<Byte>)
    requires |a| == 4
    ensures Word(Quad(a), IsGraph)
  {
    hide Dec;
  }

  lemma OctetDotDec(b: Byte, rest: string)
    ensures OctetDot(Dec(b as nat) + ("." + rest)) == Dotted(b, rest)
    ensures Octet(StrToUl(Dec(b as nat)).0) == b
  {
    hide Dec, StrToUl;
    var d := Dec(b as nat);
    StrToUlDec(b as nat, "." + rest);
    StrToUlDec(b as nat, "");
    assert d + "" == d;
    assert (d + ("." + rest))[|d| + 1..] == rest;
  }

  lemma NetAddrQuad(a: seq<Byte>)
    requires |a| == 4
    ensures NetAddr(Quad(a)) == a
  {
    hide Dec, StrToUl, OctetDot, Octet;
    var t4 := Dec(a[3] as nat);
    var t3 := Dec(a[2] as nat) + ("." + t4);
    var t2 := Dec(a[1] as nat) + ("." + t3);
    OctetDotDec(a[0], t2);
    OctetDotDec(a[1], t3);
    OctetDotDec(a[2], t4);
    OctetDotDec(a[3], "");
  }

  /** All pairs assigned in turn. */
  function AssignPairs(s: Settings, pairs: seq<(string, string)>): (int, Settings)
    decreases |pairs|
  {
    if |pairs| == 0 then (0, s)
    else
      var (result, t) := Assign(s, pairs[0].0, pairs[0].1);
      if result != 0 then (result, t) else AssignPairs(t, pairs[1..])
  }

  predicate Printable(pairs: seq<(string, string)>) {
    forall i :: 0 <= i < |pairs| ==> Word(pairs[i].0, IsAlnum) && Word(pairs[i].1, IsGraph)
  }

  /** Reading printed pairs is assigning them. */
  lemma {:induction false} ReadPairs(s: Settings, pairs: seq<(string, string)>)
    requires Printable(pairs)
    ensures AssignLines(s, Lines(Printed(pairs))) == AssignPairs(s, pairs)
    decreases |pairs|
  {
    hide Assign, SplitLine, IsGraph, IsAlnum;
    if |pairs| > 0 {
      var (key, value) := pairs[0];
      var line := key + " = " + value;
      LineIsWord(key, value);
      LinesPrinted(line, Printed(pairs[1..]));
      SplitPrinted(key, value);
      assert Printed(pairs) == line + "\n" + Printed(pairs[1..]);
      assert Lines(Printed(pairs))[1..] == Lines(Printed(pairs[1..]));
      var (result, t) := Assign(s, key, value);
      ReadPairs(t, pairs[1..]);
    }
  }

  lemma LineIsWord(key: string, value: string)
    requires Word(key, IsAlnum) && Word(value, IsGraph)
    ensures Word(key + " = " + value, c => !IsBreak(c))
  {
  }

  lemma PairsArePrintable(s: Settings)
    requires WellFormed(s)
    ensures Printable(Pairs(s))
  {
    hide Dec, Quad;
    QuadIsWord(s.ipAddress);
    QuadIsWord(s.subnetMask);
    QuadIsWord(s.gateway);
  }

  /** What a flag becomes on its way through the file. */
  function Plain(value: int): int {
    if value != 0 then 1 else 0
  }

  function PlainSettings(s: Settings): Settings {
    s.(sortTitles := Plain(s.sortTitles), useDHCP := Plain(s.useDHCP),
       advancedNetworkSettings := Plain(s.advancedNetworkSettings), ethernetFlowControl := Plain(s.ethernetFlowControl))
  }

  lemma AssignStep(s: Settings, pairs: seq<(string, string)>, k: nat)
    requires k < |pairs|
    ensures var (result, t) := Assign(s, pairs[k].0, pairs[k].1);
            AssignPairs(s, pairs[k..]) == if result != 0 then (result, t) else AssignPairs(t, pairs[k + 1..])
  {
    hide Assign;
    assert pairs[k..][0] == pairs[k] && pairs[k..][1..] == pairs[k + 1..];
  }

  lemma AssignNone(s: Settings, pairs: seq<(string, string)>)
    requires |pairs| == 8
    ensures AssignPairs(s, pairs[8..]) == (0, s)
  {
  }

  /** The first five lines. */
  lemma AssignSome(previous: Settings, s: Settings)
    requires WellFormed(s)
    ensures AssignPairs(previous, Pairs(s)) == AssignPairs(
              previous.(sortTitles := Plain(s.sortTitles), useDHCP := Plain(s.useDHCP),
                        ipAddress := s.ipAddress, subnetMask := s.subnetMask, gateway := s.gateway), Pairs(s)[5..])
  {
    hide NetAddr, StrToL, Quad, Signed, AssignPairs;
    NetAddrQuad(s.ipAddress);
    NetAddrQuad(s.subnetMask);
    NetAddrQuad(s.gateway);
    var p := Pairs(s);
    assert p[0..] == p;
    AssignStep(previous, p, 0);
    var s1 := previous.(sortTitles := Plain(s.sortTitles));
    AssignStep(s1, p, 1);
    var s2 := s1.(useDHCP := Plain(s.useDHCP));
    AssignStep(s2, p, 2);
    var s3 := s2.(ipAddress := s.ipAddress);
    AssignStep(s3, p, 3);
    var s4 := s3.(subnetMask := s.subnetMask);
    AssignStep(s4, p, 4);
  }

  lemma ShortStays(x: int)
    requires -0x8000 <= x < 0x8000
    ensures S16(x) == x
  {
  }

  /** Every setting is assigned, so nothing of the previous ones is left. */
  lemma AssignAll(previous: Settings, s: Settings)
    requires WellFormed(s)
    ensures AssignPairs(previous, Pairs(s)) == (0, PlainSettings(s))
  {
    hide NetAddr, StrToL, Quad, Signed, AssignPairs, S16;
    AssignSome(previous, s);
    StrToLSigned(s.ethernetLinkMode);
    ShortStays(s.ethernetLinkMode);
    var p := Pairs(s);
    var s5 := previous.(sortTitles := Plain(s.sortTitles), useDHCP := Plain(s.useDHCP),
                        ipAddress := s.ipAddress, subnetMask := s.subnetMask, gateway := s.gateway);
    AssignStep(s5, p, 5);
    var s6 := s5.(advancedNetworkSettings := Plain(s.advancedNetworkSettings));
    AssignStep(s6, p, 6);
    var s7 := s6.(ethernetLinkMode := s.ethernetLinkMode);
    AssignStep(s7, p, 7);
    var s8 := s7.(ethernetFlowControl := Plain(s.ethernetFlowControl));
    AssignNone(s8, p);
  }

  /**
   Reading the printed settings assigns every one of them, whatever they were before, and gives the same settings
   back exactly when the flags were 0 or 1.
   */
  lemma SettingsRoundTrip(previous: Settings, s: Settings)
    requires WellFormed(s)
    ensures AssignLines(previous, Lines(Printed(Pairs(s)))) == (0, PlainSettings(s))
    ensures AssignLines(previous, Lines(Printed(Pairs(s)))).1 == s <==> PlainFlags(s)
  {
    hide Pairs, Assign, AssignPairs, Lines, Printed, AssignLines;
    PairsArePrintable(s);
    ReadPairs(previous, Pairs(s));
    AssignAll(previous, s);
  }

  // ---------------------------------------------------------------- the functions of settings.c

  lemma LinesSkipBreak(t: string, i: nat)
    requires i < |t| && IsBreak(t[i])
    ensures Lines(t[i..]) == Lines(t[i + 1..])
  {
    assert t[i..][1..] == t[i + 1..];
  }

  lemma NoLines(t: string)
    ensures Lines(t[|t|..]) == []
  {
  }

  lemma LinesTake(t: string, i: nat, j: nat)
    requires i < j <= |t| && (forall k :: i <= k < j ==> !IsBreak(t[k])) && (j < |t| ==> IsBreak(t[j]))
    ensures Lines(t[i..]) == [t[i..j]] + Lines(t[j..])
  {
    var u := t[i..];
    assert forall k :: 0 <= k < j - i ==> u[k] == t[i + k];
    SkipIs(u, 0, j - i, c => !IsBreak(c));
    assert u[..j - i] == t[i..j] && u[j - i..] == t[j..];
  }

  class Runtime {
    var sortTitles: int
    var useDHCP: int
    var ipAddress: seq<Byte>
    var subnetMask: seq<Byte>
    var gateway: seq<Byte>
    var advancedNetworkSettings: int
    var ethernetLinkMode: int
    var ethernetFlowControl: int

    function View(): Settings
      reads this
    {
      Settings(sortTitles, useDHCP, ipAddress, subnetMask, gateway, advancedNetworkSettings,
               ethernetLinkMode, ethernetFlowControl)
    }

    constructor (s: Settings)
      ensures View() == s
    {
      sortTitles, useDHCP := s.sortTitles, s.useDHCP;
      ipAddress, subnetMask, gateway := s.ipAddress, s.subnetMask, s.gateway;
      advancedNetworkSettings, ethernetLinkMode := s.advancedNetworkSettings, s.ethernetLinkMode;
      ethernetFlowControl := s.ethernetFlowControl;
    }

    /** ParseNetAddr; `addr` is what the address was and stays unless all four octets are there. */
    method ParseNetAddr(value: string, addr: seq<Byte>) returns (result: int, r: seq<Byte>)
      ensures result == (if NetAddr(value) == [] then -EINVAL else 0)
      ensures r == if NetAddr(value) == [] then addr else NetAddr(value)
    {
      hide StrToUl, Octet;
      result, r := -EINVAL, addr;
      var n := StrToUl(value);
      var o1 := Octet(n.0);
      if n.1 < |value| && value[n.1] == '.' {
        var v2 := value[n.1 + 1..];
        n := StrToUl(v2);
        var o2 := Octet(n.0);
        if n.1 < |v2| && v2[n.1] == '.' {
          var v3 := v2[n.1 + 1..];
          n := StrToUl(v3);
          var o3 := Octet(n.0);
          if n.1 < |v3| && v3[n.1] == '.' {
            n := StrToUl(v3[n.1 + 1..]);
            result, r := 0, [o1, o2, o3, Octet(n.0)];
          }
        }
      }
    }

    /** The flag a value spells, and the error if it spells none. */
    method ParseFlag(value: string, former: int) returns (result: int, flag: int)
      ensures result == (if ReadFlag(value).Unreadable? then -EINVAL else 0)
      ensures flag == if ReadFlag(value).Unreadable? then former else FlagValue(ReadFlag(value))
    {
      if value == "true" {
        return 0, 1;
      } else if value == "false" {
        return 0, 0;
      }
      return -EINVAL, former;
    }

    /** ParseLine. */
    method ParseLine(key: string, value: string) returns (result: int)
      modifies this
      ensures (result, View()) == Assign(old(View()), key, value)
    {
      hide NetAddr, StrToL, ReadFlag, S16;
      if key == "SORT" {
        result, sortTitles := ParseFlag(value, sortTitles);
      } else if key == "DHCP" {
        result, useDHCP := ParseFlag(value, useDHCP);
      } else if key == "IP" {
        result, ipAddress := ParseNetAddr(value, ipAddress);
      } else if key == "NM" {
        result, subnetMask := ParseNetAddr(value, subnetMask);
      } else if key == "GW" {
        result, gateway := ParseNetAddr(value, gateway);
      } else if key == "ADVNETWORK" {
        result, advancedNetworkSettings := ParseFlag(value, advancedNetworkSettings);
      } else if key == "LINKMODE" {
        result, ethernetLinkMode := 0, S16(StrToL(value));
      } else if key == "FLOWCTRL" {
        result, ethernetFlowControl := ParseFlag(value, ethernetFlowControl);
      } else {
        result := -EINVAL;
      }
    }

    method Cross(line: string, from: nat, p: char -> bool) returns (i: nat)
      requires from <= |line|
      ensures i == Past(line, from, p)
    {
      i := from;
      while i < |line| && p(line[i])
        invariant from <= i <= |line| && Skip(line, i, p) == Skip(line, from, p)
      {
        i := i + 1;
      }
    }

    /** The walk across a line. */
    method CrossLine(line: string) returns (split: Split)
      ensures split == SplitLine(line)
    {
      hide Past;
      var key := Cross(line, 0, IsSpace);
      var keyEnd := Cross(line, key, IsAlnum);
      var i := Cross(line, keyEnd, IsSpace);
      if i == |line| || line[i] != '=' {
        return NoEquals;
      }
      var value := Cross(line, i + 1, IsSpace);
      var end := Cross(line, value, IsGraph);
      split := Pair(line[key..keyEnd], line[value..end]);
    }

    /** One round of ParseSettings' loop. */
    method ParseOne(line: string) returns (result: int)
      modifies this
      ensures SplitLine(line).NoEquals? ==> result == -1 && View() == old(View())
      ensures SplitLine(line).Pair? ==>
        (result, View()) == Assign(old(View()), SplitLine(line).key, SplitLine(line).value)
    {
      hide Assign, SplitLine;
      var split := CrossLine(line);
      match split
      case NoEquals => result := -1;
      case Pair(key, value) => result := ParseLine(key, value);
    }

    /** ParseSettings. A buffer without any line leaves the result as it happens to be, `unset`. */
    method ParseSettings(buffer: string, unset: int) returns (result: int)
      modifies this
      ensures Lines(buffer) != [] ==> (result, View()) == AssignLines(old(View()), Lines(buffer))
      ensures Lines(buffer) == [] ==> result == unset && View() == old(View())
    {
      hide Assign, SplitLine, Lines, IsBreak;
      result := unset;
      var i, first := 0, true;
      assert buffer[0..] == buffer;
      while true
        invariant i <= |buffer|
        invariant AssignLines(View(), Lines(buffer[i..])) == AssignLines(old(View()), Lines(buffer))
        invariant if first then result == unset && View() == old(View()) && Lines(buffer[i..]) == Lines(buffer)
                  else result == 0 && Lines(buffer) != []
        decreases |buffer| - i
      {
        i := SkipBreaks(buffer, i);
        if i == |buffer| {
          NoLines(buffer);
          return;
        }
        var start := i;
        while i < |buffer| && !IsBreak(buffer[i])
          invariant start <= i <= |buffer| && forall k :: start <= k < i ==> !IsBreak(buffer[k])
          modifies {}
        {
          i := i + 1;
        }
        LinesTake(buffer, start, i);
        ghost var before := View();
        assert Lines(buffer[start..])[1..] == Lines(buffer[i..]);
        result := ParseOne(buffer[start..i]);
        if result != 0 {
          return;
        }
        first := false;
      }
    }

    method SkipBreaks(buffer: string, from: nat) returns (i: nat)
      requires from <= |buffer|
      ensures from <= i <= |buffer| && Lines(buffer[i..]) == Lines(buffer[from..])
      ensures (i < |buffer| ==> !IsBreak(buffer[i]))
    {
      hide Lines, IsBreak;
      i := from;
      while i < |buffer| && IsBreak(buffer[i])
        invariant from <= i <= |buffer| && Lines(buffer[i..]) == Lines(buffer[from..])
      {
        LinesSkipBreak(buffer, i);
        i := i + 1;
      }
    }

    /** WriteSettings: the text it writes, line by line as its format has it. */
    method WriteSettings() returns (text: string)
      requires WellFormed(View())
      ensures text == Printed(Pairs(View()))
    {
      hide Printed, Quad, Signed, WriteBoolean;
      var s, p := View(), Pairs(View());
      var last := "ADVNETWORK = " + WriteBoolean(advancedNetworkSettings) + "\n"
                  + ("LINKMODE = " + Signed(ethernetLinkMode) + "\n"
                     + ("FLOWCTRL = " + WriteBoolean(ethernetFlowControl) + "\n"));
      PrintedLine("FLOWCTRL", WriteBoolean(ethernetFlowControl), p, 7);
      PrintedLine("LINKMODE", Signed(ethernetLinkMode), p, 6);
      PrintedLine("ADVNETWORK", WriteBoolean(advancedNetworkSettings), p, 5);
      assert last == Printed(p[5..]) by {
        NothingPrinted(p);
        assert "FLOWCTRL" + " = " == "FLOWCTRL = " && "LINKMODE" + " = " == "LINKMODE = ";
      assert "ADVNETWORK" + " = " == "ADVNETWORK = ";
        assert "FLOWCTRL = " + WriteBoolean(ethernetFlowControl) + "\n" + ""
            == "FLOWCTRL = " + WriteBoolean(ethernetFlowControl) + "\n";
      }
      text := "SORT = " + WriteBoolean(sortTitles) + "\n"
              + ("DHCP = " + WriteBoolean(useDHCP) + "\n"
                 + ("IP = " + Quad(ipAddress) + "\n"
                    + ("NM = " + Quad(subnetMask) + "\n" + ("GW = " + Quad(gateway) + "\n" + last))));
      PrintedLine("GW", Quad(gateway), p, 4);
      PrintedLine("NM", Quad(subnetMask), p, 3);
      PrintedLine("IP", Quad(ipAddress), p, 2);
      PrintedLine("DHCP", WriteBoolean(useDHCP), p, 1);
      PrintedLine("SORT", WriteBoolean(sortTitles), p, 0);
      assert "SORT" + " = " == "SORT = " && "DHCP" + " = " == "DHCP = ";
      assert "IP" + " = " == "IP = " && "NM" + " = " == "NM = " && "GW" + " = " == "GW = ";
      assert p[0..] == p;
    }

    /** Settings written and read back, by a program that had any others before. */
    method WriteAndRead(other: Runtime) returns (result: int)
      requires WellFormed(View()) && other != this
      modifies other
      ensures result == 0 && other.View() == PlainSettings(View())
      ensures other.View() == View() <==> PlainFlags(View())
    {
      hide AssignLines, Lines, Printed, Pairs, PlainSettings;
      var text := WriteSettings();
      SettingsRoundTrip(other.View(), View());
      EightLines(View());
      result := other.ParseSettings(text, 0);
      assert this.View() == old(this.View());
    }
  }

  lemma PrintedLine(key: string, value: string, pairs: seq<(string, string)>, k: nat)
    requires k < |pairs| && pairs[k] == (key, value)
    ensures Printed(pairs[k..]) == key + " = " + value + "\n" + Printed(pairs[k + 1..])
  {
    assert pairs[k..][0] == pairs[k] && pairs[k..][1..] == pairs[k + 1..];
  }

  lemma NothingPrinted(pairs: seq<(string, string)>)
    requires |pairs| == 8
    ensures Printed(pairs[8..]) == ""
  {
  }

  lemma EightLines(s: Settings)
    requires WellFormed(s)
    ensures Lines(Printed(Pairs(s))) != []
  {
    hide Lines, SplitLine;
    PairsArePrintable(s);
    var (key, value) := Pairs(s)[0];
    assert Word(key, IsAlnum) && Word(value, IsGraph);
    LineIsWord(key, value);
    LinesPrinted(key + " = " + value, Printed(Pairs(s)[1..]));
  }
}
