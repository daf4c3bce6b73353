/**
 * The weight string of the round-robin selector: how it is printed from a host list, how it is cut into
 * tokens and read back into the weight map, and that reading what was printed gives the weights again.
 */
module WeightStrings {

  import opened Options
  import opened Hosts

  const INT_MAX := 0x7FFF_FFFF
  const INT_MIN := -0x8000_0000
  const DEFAULT_WEIGHT := 1

  // ---------- decimal numbers ----------

  const DIGITS := "0123456789"

  predicate IsDigit(c: char) { '0' <= c <= '9' }

  function Decimal(n: nat): (s: string)
    ensures s != "" && forall c :: c in s ==> IsDigit(c)
  {
    if n < 10 then [DIGITS[n]] else Decimal(n / 10) + [DIGITS[n % 10]]
  }

  function ValueOf(digits: string): nat
    requires forall c :: c in digits ==> IsDigit(c)
  {
    if digits == "" then 0
    else
      var last := digits[|digits| - 1];
      assert IsDigit(last);
      ValueOf(digits[..|digits| - 1]) * 10 + (last as int - '0' as int)
  }

  lemma {:induction false} ValueOfDecimal(n: nat)
    ensures ValueOf(Decimal(n)) == n
  {
    if n >= 10 {
      ValueOfDecimal(n / 10);
      assert Decimal(n)[..|Decimal(n)| - 1] == Decimal(n / 10);
    } else {
      assert Decimal(n)[..0] == "";
    }
  }

  predicate IsSpace(c: char) { c == ' ' || '\t' <= c <= '\r' }

  function SkipSpaces(s: string): string {
    if s != "" && IsSpace(s[0]) then SkipSpaces(s[1..]) else s
  }

  // Extraction of an int from a stream over the whole text, followed by the test that nothing is left over:
  // leading white space, an optional sign, digits, and a value that an int can hold.
  function ConvertToInt(str: string): Option<int> {
    var s := SkipSpaces(str);
    var signed := s != "" && (s[0] == '-' || s[0] == '+');
    var digits := if signed then s[1..] else s;
    if digits == "" || exists c :: c in digits && !IsDigit(c) then None
    else
      var magnitude: int := ValueOf(digits);
      var value: int := if signed && s[0] == '-' then -magnitude else magnitude;
      if INT_MIN <= value <= INT_MAX then Some(value) else None
  }

  lemma ConvertDecimal(n: nat)
    requires n <= INT_MAX
    ensures ConvertToInt(Decimal(n)) == Some(n)
  {
    assert Decimal(n)[0] in Decimal(n);
    ValueOfDecimal(n);
  }

  // Blank, tab, line feed, vertical tab, form feed and carriage return.
  const SPACES: seq<char> := [' ', '\t', '\n', 11 as char, 12 as char, '\r']

  lemma SpacesAre(c: char)
    ensures IsSpace(c) <==> c in SPACES
  {
    assert SPACES[0] == ' ' && SPACES[1] == '\t' && SPACES[2] == '\n' && SPACES[5] == '\r';
    assert SPACES[3] == 11 as char && SPACES[4] == 12 as char;
    assert c as int == 11 ==> c == SPACES[3];
    assert c as int == 12 ==> c == SPACES[4];
  }

  // White space, an optional sign and digits, whose value is v.
  ghost predicate WritesInt(str: string, spaces: string, sign: string, digits: string, v: int) {
    && str == spaces + sign + digits && (forall c :: c in spaces ==> c in SPACES) && sign in {"", "+", "-"}
    && digits != "" && (forall c :: c in digits ==> IsDigit(c))
    && v == if sign == "-" then -(ValueOf(digits) as int) else ValueOf(digits)
  }

  lemma {:induction false} SkipsAll(spaces: string, rest: string)
    requires (forall c :: c in spaces ==> IsSpace(c)) && (rest != "" ==> !IsSpace(rest[0]))
    ensures SkipSpaces(spaces + rest) == rest
  {
    if spaces == "" {
      assert spaces + rest == rest;
    } else {
      assert (spaces + rest)[1..] == spaces[1..] + rest;
      SkipsAll(spaces[1..], rest);
    }
  }

  lemma {:induction false} Skipped(str: string) returns (spaces: string)
    ensures str == spaces + SkipSpaces(str) && forall c :: c in spaces ==> IsSpace(c)
  {
    spaces := "";
    if str != "" && IsSpace(str[0]) {
      var more := Skipped(str[1..]);
      spaces := [str[0]] + more;
      assert str == [str[0]] + str[1..];
    }
  }

  lemma SignsAndDigitsAreNoSpaces()
    ensures !IsSpace('+') && !IsSpace('-') && forall c :: IsDigit(c) ==> !IsSpace(c)
  {
  }

  lemma ConvertedIsWritten(str: string, v: int)
    requires ConvertToInt(str) == Some(v)
    ensures exists spaces, sign, digits :: WritesInt(str, spaces, sign, digits, v)
  {
    hide ValueOf, IsSpace;
    forall c: char ensures IsSpace(c) <==> c in SPACES {
      SpacesAre(c);
    }
    var spaces := Skipped(str);
    var s := SkipSpaces(str);
    var signed := s[0] == '-' || s[0] == '+';
    var sign, digits := if signed then [s[0]] else "", if signed then s[1..] else s;
    assert str == spaces + sign + digits;
    assert WritesInt(str, spaces, sign, digits, v);
  }

  lemma WrittenConverts(str: string, spaces: string, sign: string, digits: string, v: int)
    requires WritesInt(str, spaces, sign, digits, v) && INT_MIN <= v <= INT_MAX
    ensures ConvertToInt(str) == Some(v)
  {
    hide ValueOf, IsSpace;
    forall c | c in spaces ensures IsSpace(c) {
      SpacesAre(c);
    }
    SignsAndDigitsAreNoSpaces();
    assert digits[0] in digits;
    assert spaces + sign + digits == spaces + (sign + digits);
    SkipsAll(spaces, sign + digits);
    if sign != "" {
      assert (sign + digits)[1..] == digits;
    } else {
      assert sign + digits == digits;
    }
  }

  /** A text converts to an int exactly when it is white space, an optional sign and digits, and the value fits. */
  lemma ConvertsExactly(str: string, v: int)
    ensures ConvertToInt(str) == Some(v) <==>
      INT_MIN <= v <= INT_MAX && exists spaces, sign, digits :: WritesInt(str, spaces, sign, digits, v)
  {
    hide WritesInt;
    if ConvertToInt(str) == Some(v) {
      ConvertedIsWritten(str, v);
    }
    if INT_MIN <= v <= INT_MAX {
      if spaces, sign, digits :| WritesInt(str, spaces, sign, digits, v) {
        WrittenConverts(str, spaces, sign, digits, v);
      }
    }
  }

  // ---------- tokens ----------

  function IndexOf(s: string, c: char): (i: nat)
    ensures i <= |s| && c !in s[..i] && (i < |s| ==> s[i] == c)
  {
    if s == "" || s[0] == c then 0
    else
      var i := 1 + IndexOf(s[1..], c);
      assert s[..i] == [s[0]] + s[1..][..i - 1];
      i
  }

  lemma {:induction false} IndexIs(s: string, c: char, i: nat)
    requires i <= |s| && c !in s[..i] && (i < |s| ==> s[i] == c)
    ensures IndexOf(s, c) == i
  {
    if i > 0 {
      assert s[..i][0] == s[0] && s[1..][..i - 1] == s[..i][1..];
      IndexIs(s[1..], c, i - 1);
    }
  }

  function AfterIndex(s: string, i: nat): string { if i < |s| then s[i + 1..] else "" }

  // The lines a loop over getline yields: nothing for an empty rest, and no empty line after a final delimiter.
  function Tokens(s: string, delimiter: char): seq<string>
    decreases |s|
  {
    if s == "" then []
    else
      var i := IndexOf(s, delimiter);
      [s[..i]] + Tokens(AfterIndex(s, i), delimiter)
  }

  method GetLine(stream: string, delimiter: char) returns (token: string, rest: string)
    requires stream != ""
    ensures token == stream[..IndexOf(stream, delimiter)] && rest == AfterIndex(stream, IndexOf(stream, delimiter))
  {
    var i := 0;
    while i < |stream| && stream[i] != delimiter
      invariant i <= |stream| && delimiter !in stream[..i]
    {
      i := i + 1;
    }
    IndexIs(stream, delimiter, i);
    token, rest := stream[..i], if i < |stream| then stream[i + 1..] else "";
  }

  method Split(s: string, delimiter: char) returns (tokens: seq<string>)
    ensures tokens == Tokens(s, delimiter)
  {
    tokens := [];
    var stream := s;
    while stream != ""
      invariant tokens + Tokens(stream, delimiter) == Tokens(s, delimiter)
      decreases |stream|
    {
      var token, rest := GetLine(stream, delimiter);
      assert Tokens(stream, delimiter) == [token] + Tokens(rest, delimiter);
      tokens, stream := tokens + [token], rest;
    }
  }

  lemma TokensCons(head: string, c: char, rest: string)
    requires c !in head
    ensures Tokens(head + [c] + rest, c) == [head] + Tokens(rest, c)
    ensures head != "" ==> Tokens(head, c) == [head]
  {
    var s := head + [c] + rest;
    assert s[..|head|] == head && s[|head| + 1..] == rest && head[..|head|] == head;
    IndexIs(s, c, |head|);
    IndexIs(head, c, |head|);
    assert Tokens(AfterIndex(head, |head|), c) == [];
  }

  // The text is the two tokens with a delimiter in between, and perhaps another one at the end.
  predicate TwoTokens(s: string, c: char, a: string, b: string) {
    c !in a && c !in b && (s == a + [c] + b || s == a + [c] + b + [c])
  }

  lemma TokensOfTwo(s: string, c: char, a: string, b: string)
    requires b != ""
    ensures Tokens(s, c) == [a, b] <==> TwoTokens(s, c, a, b)
  {
    hide Tokens, TwoTokens;
    if Tokens(s, c) == [a, b] {
      TokensAreTwo(s, c, a, b);
    }
    if TwoTokens(s, c, a, b) {
      TwoAreTokens(s, c, a, b);
    }
  }

  lemma FirstToken(s: string, c: char)
    requires s != ""
    ensures Tokens(s, c) == [s[..IndexOf(s, c)]] + Tokens(AfterIndex(s, IndexOf(s, c)), c)
  {
    hide IndexOf, AfterIndex;
  }

  lemma EndsThere(s: string, c: char)
    requires AfterIndex(s, IndexOf(s, c)) == ""
    ensures var first := s[..IndexOf(s, c)]; c !in first && (s == first || s == first + [c])
  {
  }

  lemma TokensAreTwo(s: string, c: char, a: string, b: string)
    requires b != "" && Tokens(s, c) == [a, b]
    ensures TwoTokens(s, c, a, b)
  {
    hide Tokens, IndexOf, AfterIndex;
    NoTokens(s, c);
    FirstToken(s, c);
    var rest := AfterIndex(s, IndexOf(s, c));
    var first := s[..IndexOf(s, c)];
    assert ([first] + Tokens(rest, c))[1..] == Tokens(rest, c) && ([first] + Tokens(rest, c))[0] == first;
    assert first == [a, b][0] == a;
    assert Tokens(rest, c) == [a, b][1..] == [b];
    LastToken(rest, c, b);
    NotInFirst(s, c);
    assert s == a + [c] + rest;
    if rest == b + [c] {
      assert a + [c] + (b + [c]) == a + [c] + b + [c];
    }
  }

  lemma NoTokens(s: string, c: char)
    ensures Tokens(s, c) == [] <==> s == ""
  {
  }

  lemma NotInFirst(s: string, c: char)
    requires s != "" && AfterIndex(s, IndexOf(s, c)) != ""
    ensures var i := IndexOf(s, c); i < |s| && c !in s[..i] && s == s[..i] + [c] + AfterIndex(s, i)
  {
  }

  lemma LastToken(s: string, c: char, b: string)
    requires b != "" && Tokens(s, c) == [b]
    ensures c !in b && (s == b || s == b + [c])
  {
    hide Tokens, IndexOf, AfterIndex;
    NoTokens(s, c);
    FirstToken(s, c);
    var first, last := s[..IndexOf(s, c)], AfterIndex(s, IndexOf(s, c));
    assert ([first] + Tokens(last, c))[1..] == Tokens(last, c) && ([first] + Tokens(last, c))[0] == first;
    assert first == [b][0] == b;
    assert Tokens(last, c) == [b][1..] == [];
    NoTokens(last, c);
    EndsThere(s, c);
  }

  lemma TwoAreTokens(s: string, c: char, a: string, b: string)
    requires b != "" && TwoTokens(s, c, a, b)
    ensures Tokens(s, c) == [a, b]
  {
    hide Tokens;
    NoTokens("", c);
    TokensCons(b, c, "");
    assert [b] + [] == [b] && [a] + [b] == [a, b];
    if s == a + [c] + b {
      TokensCons(a, c, b);
    } else {
      assert s == a + [c] + (b + [c]);
      TokensCons(a, c, b + [c]);
      assert b + [c] == b + [c] + "";
    }
  }

  // ---------- printing ----------

  function Pair(host: HostInfo): string { host.host + ":" + Decimal(host.weight) }

  function Printed(hosts: seq<HostInfo>): string {
    if hosts == [] then ""
    else if |hosts| == 1 then Pair(hosts[0])
    else Pair(hosts[0]) + "," + Printed(hosts[1..])
  }

  method SetRoundRobinWeight(hosts: seq<HostInfo>, properties: map<string, string>)
    returns (properties': map<string, string>)
    ensures properties' == properties[HOST_WEIGHT_KEY := Printed(hosts)]
  {
    hide Decimal, Printed;
    var hostWeightStr := "";
    for i := 0 to |hosts|
      invariant hostWeightStr + Printed(hosts[i..]) == Printed(hosts)
    {
      PrintedStep(hosts, i, hostWeightStr);
      hostWeightStr := hostWeightStr + hosts[i].host;
      hostWeightStr := hostWeightStr + ":";
      hostWeightStr := hostWeightStr + Decimal(hosts[i].weight);
      if i < |hosts| - 1 {
        hostWeightStr := hostWeightStr + ",";
      }
    }
    PrintedEnd(hosts, hostWeightStr);
    properties' := properties[HOST_WEIGHT_KEY := hostWeightStr];
  }

  // Appending one pair, and a comma unless it is the last, moves it from the rest to the front.
  lemma PrintedStep(hosts: seq<HostInfo>, i: nat, front: string)
    requires i < |hosts|
    ensures var more := front + hosts[i].host + ":" + Decimal(hosts[i].weight);
      (if i < |hosts| - 1 then more + "," else more) + Printed(hosts[i + 1..]) == front + Printed(hosts[i..])
  {
    hide Decimal;
    var h, d := hosts[i].host, Decimal(hosts[i].weight);
    assert hosts[i..][1..] == hosts[i + 1..];
    var rest := Printed(hosts[i + 1..]);
    if i < |hosts| - 1 {
      assert Printed(hosts[i..]) == (h + ":" + d) + "," + rest;
      assert front + h + ":" + d + "," + rest == front + ((h + ":" + d) + "," + rest);
    } else {
      assert Printed(hosts[i..]) == h + ":" + d && rest == "";
      assert front + h + ":" + d + rest == front + (h + ":" + d);
    }
  }

  lemma PrintedEnd(hosts: seq<HostInfo>, front: string)
    ensures front + Printed(hosts[|hosts|..]) == front
  {
  }

  const HOST_WEIGHT_KEY := "round_robin_host_weight_pairs"
  const DEFAULT_WEIGHT_KEY := "round_robin_default_weight"

  // ---------- reading ----------

  datatype WeightError = InvalidFormat | MissingPart | NotParsable

  // The weight map and the remembered string after reading; groups before the failing one stay applied.
  datatype Reading = Reading(weights: map<string, int>, lastString: string, error: Option<WeightError>)

  datatype Group = BadGroup(error: WeightError) | Group(host: string, weight: int)

  function ReadGroup(group: string): (r: Group)
    ensures r.Group? ==> r.host != "" && DEFAULT_WEIGHT <= r.weight <= INT_MAX
  {
    var parts := Tokens(group, ':');
    if |parts| != 2 then BadGroup(InvalidFormat)
    else if parts[0] == "" || parts[1] == "" then BadGroup(MissingPart)
    else
      match ConvertToInt(parts[1])
      case None => BadGroup(NotParsable)
      case Some(weight) => if weight < DEFAULT_WEIGHT then BadGroup(NotParsable) else Group(parts[0], weight)
  }

  /** A pair is accepted exactly when it is a name, a colon and a number from 1 up that an int can hold, neither of the two
      empty or with a colon in it; a colon may follow. */
  lemma GroupExactly(group: string, host: string, weight: int)
    ensures ReadGroup(group) == Group(host, weight) <==>
      host != "" && weight >= 1
      && exists number :: number != "" && TwoTokens(group, ':', host, number) && ConvertToInt(number) == Some(weight)
  {
    hide ConvertToInt;
    var parts := Tokens(group, ':');
    if ReadGroup(group) == Group(host, weight) {
      assert parts == [host, parts[1]];
      TokensOfTwo(group, ':', host, parts[1]);
    }
    if number :| number != "" && TwoTokens(group, ':', host, number) && ConvertToInt(number) == Some(weight) {
      TokensOfTwo(group, ':', host, number);
    }
  }

  function ReadGroups(groups: seq<string>, whole: string, weights: map<string, int>, lastString: string): Reading {
    if groups == [] then Reading(weights, lastString, None)
    else
      match ReadGroup(groups[0])
      case BadGroup(error) => Reading(weights, lastString, Some(error))
      case Group(host, weight) => ReadGroups(groups[1..], whole, weights[host := weight], whole)
  }

  function ReadString(whole: string, weights: map<string, int>, lastString: string): Reading {
    if whole == "" then Reading(map[], "", None)
    else ReadGroups(Tokens(whole, ','), whole, weights, lastString)
  }

  // The first n groups are good and the next one, if there is one, is not.
  predicate GoodUpTo(groups: seq<string>, n: nat) {
    && n <= |groups| && (forall i :: 0 <= i < n ==> ReadGroup(groups[i]).Group?)
    && (n < |groups| ==> ReadGroup(groups[n]).BadGroup?)
  }

  // What a name is worth after the first n groups: what the last of them that names it says, or what it was worth before.
  ghost predicate Worth(groups: seq<string>, n: nat, before: map<string, int>, after: map<string, int>, name: string)
    requires n <= |groups|
  {
    if exists i :: 0 <= i < n && NamesHost(groups[i], name) then
      exists i :: 0 <= i < n && NamesHost(groups[i], name) && (forall j :: i < j < n ==> !NamesHost(groups[j], name))
        && name in after && after[name] == ReadGroup(groups[i]).weight
    else (name in after <==> name in before) && (name in after ==> after[name] == before[name])
  }

  predicate NamesHost(group: string, name: string) { ReadGroup(group).Group? && ReadGroup(group).host == name }

  /** Reading applies the pairs before the first malformed one, in order, and reports that one. The whole string is remembered as
      soon as one pair was good. */
  lemma {:induction false} ReadsUntilMalformed(
    groups: seq<string>, whole: string, weights: map<string, int>, last: string, n: nat, name: string)
    requires GoodUpTo(groups, n)
    ensures var r := ReadGroups(groups, whole, weights, last);
      && r.lastString == (if n == 0 then last else whole)
      && r.error == (if n == |groups| then None else Some(ReadGroup(groups[n]).error))
      && Worth(groups, n, weights, r.weights, name)
  {
    hide ReadGroup;
    if n > 0 {
      var g := ReadGroup(groups[0]);
      assert forall i :: 0 <= i < n - 1 ==> groups[1..][i] == groups[i + 1];
      ReadsUntilMalformed(groups[1..], whole, weights[g.host := g.weight], whole, n - 1, name);
      OneGroupMore(groups, n, weights, ReadGroups(groups, whole, weights, last).weights, name);
    }
  }

  lemma OneGroupMore(groups: seq<string>, n: nat, before: map<string, int>, after: map<string, int>, name: string)
    requires 0 < n <= |groups| && ReadGroup(groups[0]).Group?
    requires Worth(groups[1..], n - 1, before[ReadGroup(groups[0]).host := ReadGroup(groups[0]).weight], after, name)
    ensures Worth(groups, n, before, after, name)
  {
    hide ReadGroup;
    var rest := groups[1..];
    assert forall i :: 0 <= i < |rest| ==> rest[i] == groups[i + 1];
    if k :| 0 <= k < n - 1 && NamesHost(rest[k], name) {
      var i :| 0 <= i < n - 1 && NamesHost(rest[i], name) && (forall j :: i < j < n - 1 ==> !NamesHost(rest[j], name))
        && name in after && after[name] == ReadGroup(rest[i]).weight;
      assert NamesHost(groups[i + 1], name);
      forall j | i + 1 < j < n ensures !NamesHost(groups[j], name) {
        assert !NamesHost(rest[j - 1], name);
      }
    } else {
      forall j | 0 < j < n ensures !NamesHost(groups[j], name) {
        assert !NamesHost(rest[j - 1], name);
      }
    }
  }

  // ---------- the round trip ----------

  predicate Printable(host: HostInfo) {
    host.host != "" && ',' !in host.host && ':' !in host.host && DEFAULT_WEIGHT <= host.weight <= INT_MAX
  }

  ghost predicate PrintableList(hosts: seq<HostInfo>) {
    && (forall i :: 0 <= i < |hosts| ==> Printable(hosts[i]))
    && (forall i, j :: 0 <= i < j < |hosts| ==> hosts[i].host != hosts[j].host)
  }

  function WeightsOf(hosts: seq<HostInfo>): map<string, int> {
    if hosts == [] then map[] else WeightsOf(hosts[..|hosts| - 1])[hosts[|hosts| - 1].host := hosts[|hosts| - 1].weight]
  }

  function Pairs(hosts: seq<HostInfo>): seq<string> { seq(|hosts|, i requires 0 <= i < |hosts| => Pair(hosts[i])) }

  lemma PairHasNoComma(host: HostInfo)
    requires Printable(host)
    ensures ',' !in Pair(host) && Pair(host) != ""
  {
    assert Pair(host) == host.host + [':'] + Decimal(host.weight);
    assert ',' !in Decimal(host.weight);
  }

  lemma {:induction false} TokensOfPrinted(hosts: seq<HostInfo>)
    requires forall i :: 0 <= i < |hosts| ==> Printable(hosts[i])
    ensures Tokens(Printed(hosts), ',') == Pairs(hosts)
  {
    hide Pair, Decimal, Printed, Pairs, IndexOf, Tokens;
    if hosts == [] {
      NothingPrinted();
    } else {
      PairHasNoComma(hosts[0]);
      TokensCons(Pair(hosts[0]), ',', Printed(hosts[1..]));
      PrintedCons(hosts);
      PairsCons(hosts);
      if |hosts| == 1 {
        NothingPrinted();
      } else {
        TokensOfPrinted(hosts[1..]);
      }
    }
  }

  lemma NothingPrinted()
    ensures Tokens(Printed([]), ',') == Pairs([]) == []
  {
  }

  lemma PairsCons(hosts: seq<HostInfo>)
    requires hosts != []
    ensures Pairs(hosts) == [Pair(hosts[0])] + Pairs(hosts[1..])
  {
    hide Pair;
  }

  lemma PrintedCons(hosts: seq<HostInfo>)
    requires hosts != []
    ensures |hosts| == 1 ==> Printed(hosts) == Pair(hosts[0]) && hosts[1..] == []
    ensures |hosts| > 1 ==> Printed(hosts) == Pair(hosts[0]) + [','] + Printed(hosts[1..])
  {
    hide Pair;
  }

  lemma ReadPair(host: HostInfo)
    requires Printable(host)
    ensures ReadGroup(Pair(host)) == Group(host.host, host.weight)
  {
    var digits := Decimal(host.weight);
    assert Pair(host) == host.host + [':'] + digits;
    TokensCons(host.host, ':', digits);
    assert ':' !in digits;
    TokensCons(digits, ':', "");
    ConvertDecimal(host.weight);
  }

  lemma {:induction false} ReadPairs(hosts: seq<HostInfo>, i: nat, whole: string, base: map<string, int>, lastString: string)
    requires i <= |hosts| && forall i :: 0 <= i < |hosts| ==> Printable(hosts[i])
    ensures ReadGroups(Pairs(hosts)[i..], whole, base + WeightsOf(hosts[..i]), lastString)
         == Reading(base + WeightsOf(hosts), if i < |hosts| then whole else lastString, None)
    decreases |hosts| - i
  {
    if i == |hosts| {
      assert hosts[..i] == hosts;
    } else {
      ReadPair(hosts[i]);
      assert Pairs(hosts)[i..][0] == Pair(hosts[i]) && Pairs(hosts)[i..][1..] == Pairs(hosts)[i + 1..];
      assert hosts[..i + 1][..i] == hosts[..i];
      var was := WeightsOf(hosts[..i]);
      assert (base + was)[hosts[i].host := hosts[i].weight] == base + was[hosts[i].host := hosts[i].weight];
      ReadPairs(hosts, i + 1, whole, base, whole);
    }
  }

  lemma {:induction false} WeightsOfContains(hosts: seq<HostInfo>, i: nat)
    requires i < |hosts| && forall i, j :: 0 <= i < j < |hosts| ==> hosts[i].host != hosts[j].host
    ensures hosts[i].host in WeightsOf(hosts) && WeightsOf(hosts)[hosts[i].host] == hosts[i].weight
  {
    if i < |hosts| - 1 {
      WeightsOfContains(hosts[..|hosts| - 1], i);
    }
  }

  lemma {:induction false} WeightsOfOnly(hosts: seq<HostInfo>, name: string)
    requires name in WeightsOf(hosts)
    ensures exists i :: 0 <= i < |hosts| && hosts[i].host == name
  {
    var last := |hosts| - 1;
    if hosts[last].host != name {
      WeightsOfOnly(hosts[..last], name);
      var i :| 0 <= i < last && hosts[..last][i].host == name;
      assert hosts[i].host == name;
    }
  }

  /** Reading what was printed gives exactly the weight of every host, and leaves the weights of other names as they were, or
      clears them all when nothing was printed: for hosts with distinct non-empty names free of ',' and ':' and weights an
      int can hold. */
  lemma RoundTrip(hosts: seq<HostInfo>, weights: map<string, int>, last: string)
    requires PrintableList(hosts)
    ensures var r := ReadString(Printed(hosts), weights, last);
      && r.error == None && r.lastString == Printed(hosts)
      && (forall i :: 0 <= i < |hosts| ==> hosts[i].host in r.weights && r.weights[hosts[i].host] == hosts[i].weight)
      && (forall name :: (forall i :: 0 <= i < |hosts| ==> hosts[i].host != name) ==>
            (name in r.weights <==> hosts != [] && name in weights) && (name in r.weights ==> r.weights[name] == weights[name]))
  {
    hide ReadString, Printed;
    ReadPrinted(hosts, weights, last);
    forall i | 0 <= i < |hosts|
      ensures hosts[i].host in WeightsOf(hosts) && WeightsOf(hosts)[hosts[i].host] == hosts[i].weight
    {
      WeightsOfContains(hosts, i);
    }
    forall name | name in WeightsOf(hosts) ensures exists i :: 0 <= i < |hosts| && hosts[i].host == name {
      WeightsOfOnly(hosts, name);
    }
  }

  lemma ReadPrinted(hosts: seq<HostInfo>, weights: map<string, int>, last: string)
    requires PrintableList(hosts)
    ensures ReadString(Printed(hosts), weights, last) ==
      Reading(if hosts == [] then map[] else weights + WeightsOf(hosts), Printed(hosts), None)
  {
    hide ReadGroups;
    if hosts != [] {
      TokensOfPrinted(hosts);
      assert Pairs(hosts)[0..] == Pairs(hosts) && weights + WeightsOf(hosts[..0]) == weights;
      ReadPairs(hosts, 0, Printed(hosts), weights, last);
      assert Printed(hosts) != "" by {
        assert Pairs(hosts) != [];
      }
    }
  }

  predicate InRange(weights: map<string, int>) {
    forall name :: name in weights ==> DEFAULT_WEIGHT <= weights[name] <= INT_MAX
  }

  /** Whatever string is read, no weight below 1 and none above the range of an int enters the map. */
  lemma {:induction false} WeightsStayInRange(groups: seq<string>, whole: string, weights: map<string, int>, last: string)
    requires InRange(weights)
    ensures InRange(ReadGroups(groups, whole, weights, last).weights)
  {
    if groups != [] && ReadGroup(groups[0]).Group? {
      var group := ReadGroup(groups[0]);
      assert InRange(weights[group.host := group.weight]);
      WeightsStayInRange(groups[1..], whole, weights[group.host := group.weight], whole);
    }
  }
}
