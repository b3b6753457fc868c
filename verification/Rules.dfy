/**
 The rule language of frontends (rules/rules.go): parsing, and the domains of `Host` rules.
 */
module Rules {
  import opened Text
  import opened Wrappers

  datatype Call = Call(name: string, args: seq<string>)

  datatype ParseError =
    | EmptyRule
    | NoFunction(rule: string)
    | UnknownFunction(rule: string, name: string)
    | NoArguments(rule: string)

  // ---------- parsing ----------

  function TrimAll(args: seq<string>): (r: seq<string>)
    ensures |r| == |args| && forall i :: 0 <= i < |r| ==> r[i] == TrimSpace(args[i])
  {
    seq(|args|, i requires 0 <= i < |args| => TrimSpace(args[i]))
  }

  datatype RuleResult = Rule(call: Call) | Bad(error: ParseError)

  function ParseRule(known: set<string>, rule: string): RuleResult {
    var fields := Fields(rule, ':');
    if fields == [] then Bad(NoFunction(rule))
    else
      var name := TrimSpace(fields[0]);
      if name !in known then Bad(UnknownFunction(rule, fields[0]))
      else
        var args := Fields(Join(fields[1..], ':'), ',');
        if args == [] then Bad(NoArguments(rule)) else Rule(Call(name, TrimAll(args)))
  }

  /** The calls made to `onRule`, up to the first error. */
  datatype Outcome = Outcome(calls: seq<Call>, error: Option<ParseError>)

  function ParseAll(known: set<string>, rules: seq<string>): Outcome {
    if rules == [] then Outcome([], None)
    else match ParseRule(known, rules[0])
      case Bad(e) => Outcome([], Some(e))
      case Rule(c) =>
        var rest := ParseAll(known, rules[1..]);
        Outcome([c] + rest.calls, rest.error)
  }

  function Parse(known: set<string>, expression: string): Outcome {
    if expression == "" then Outcome([], Some(EmptyRule)) else ParseAll(known, Fields(expression, ';'))
  }

  /** One round of the loop of `parseRules`; the arguments are trimmed in place. */
  method ReadRule(known: set<string>, rule: string) returns (r: RuleResult)
    ensures r == ParseRule(known, rule)
  {
    var parsedFunctions := Fields(rule, ':');
    if |parsedFunctions| == 0 {
      return Bad(NoFunction(rule));
    }
    var functionName := TrimSpace(parsedFunctions[0]);
    if functionName !in known {
      return Bad(UnknownFunction(rule, parsedFunctions[0]));
    }
    var fields := Fields(Join(parsedFunctions[1..], ':'), ',');
    if |fields| == 0 {
      return Bad(NoArguments(rule));
    }
    var parsedArgs := TrimArguments(fields);
    return Rule(Call(functionName, parsedArgs));
  }

  /** The loop that overwrites each argument with its trimmed form. */
  method TrimArguments(fields: seq<string>) returns (r: seq<string>)
    ensures r == TrimAll(fields)
  {
    var parsedArgs := new string[|fields|](i requires 0 <= i < |fields| => fields[i]);
    for i := 0 to parsedArgs.Length
      invariant forall k :: 0 <= k < parsedArgs.Length ==> parsedArgs[k] == if k < i then TrimSpace(fields[k]) else fields[k]
    {
      parsedArgs[i] := TrimSpace(parsedArgs[i]);
    }
    r := parsedArgs[..];
  }

  /** `parseRules`, with the calls to `onRule` collected. */
  method ParseRules(known: set<string>, expression: string) returns (calls: seq<Call>, error: Option<ParseError>)
    ensures Outcome(calls, error) == Parse(known, expression)
  {
    calls := [];
    if |expression| == 0 {
      return [], Some(EmptyRule);
    }
    var parsedRules := Fields(expression, ';');
    for i := 0 to |parsedRules|
      invariant ParseAll(known, parsedRules)
          == Outcome(calls + ParseAll(known, parsedRules[i..]).calls, ParseAll(known, parsedRules[i..]).error)
    {
      assert parsedRules[i..][1..] == parsedRules[i + 1..];
      var r := ReadRule(known, parsedRules[i]);
      if r.Bad? {
        assert calls + [] == calls;
        return calls, Some(r.error);
      }
      assert calls + ([r.call] + ParseAll(known, parsedRules[i + 1..]).calls)
          == calls + [r.call] + ParseAll(known, parsedRules[i + 1..]).calls;
      calls := calls + [r.call];
    }
    assert parsedRules[|parsedRules|..] == [];
    return calls, None;
  }

  // ---------- domains ----------

  /** `types.CanonicalDomain`, with the lower case of a character as a parameter. */
  function Canonical(lower: char -> char, domain: string): string {
    var t := TrimSpace(domain);
    seq(|t|, i requires 0 <= i < |t| => lower(t[i]))
  }

  function CanonicalAll(lower: char -> char, domains: seq<string>): seq<string> {
    seq(|domains|, i requires 0 <= i < |domains| => Canonical(lower, domains[i]))
  }

  function HostArguments(calls: seq<Call>): seq<string> {
    if calls == [] then [] else (if calls[0].name == "Host" then calls[0].args else []) + HostArguments(calls[1..])
  }

  /** `ParseDomains`. */
  method ParseDomains(known: set<string>, expression: string, lower: char -> char)
    returns (domains: seq<string>, error: Option<ParseError>)
    ensures error == Parse(known, expression).error
    ensures domains == if error.Some? then [] else CanonicalAll(lower, HostArguments(Parse(known, expression).calls))
  {
    var calls;
    calls, error := ParseRules(known, expression);
    if error.Some? {
      return [], error;
    }
    domains := CollectHosts(calls);
    domains := CanonicalAll(lower, domains);
  }

  /** The `onRule` of `ParseDomains`, call by call. */
  method CollectHosts(calls: seq<Call>) returns (domains: seq<string>)
    ensures domains == HostArguments(calls)
  {
    domains := [];
    for i := 0 to |calls|
      invariant domains + HostArguments(calls[i..]) == HostArguments(calls)
    {
      assert calls[i..][1..] == calls[i + 1..];
      ghost var rest := HostArguments(calls[i + 1..]);
      if calls[i].name == "Host" {
        assert domains + (calls[i].args + rest) == domains + calls[i].args + rest;
        domains := domains + calls[i].args;
      } else {
        assert [] + rest == rest;
      }
    }
    assert calls[|calls|..] == [];
  }

  // ---------- printing ----------

  function Print(c: Call): string {
    c.name + [':'] + Join(c.args, ',')
  }

  function PrintEach(calls: seq<Call>): seq<string> {
    seq(|calls|, i requires 0 <= i < |calls| => Print(calls[i]))
  }

  function PrintAll(calls: seq<Call>): string {
    Join(PrintEach(calls), ';')
  }

  /** No leading, trailing or doubled separator. */
  predicate NoStray(s: string, sep: char) {
    s != "" && s[0] != sep && s[|s| - 1] != sep && forall i :: 0 < i < |s| ==> s[i - 1] != sep || s[i] != sep
  }

  /** A call that its printed rule stands for. */
  predicate PrintableRule(known: set<string>, c: Call) {
    && c.name in known
    && c.args != []
    && (forall i :: 0 <= i < |c.args| ==> PlainArgument(c.args[i]))
    && NoStray(Join(c.args, ','), ':')
  }

  predicate PlainArgument(a: string) {
    a != "" && Trimmed(a) && Free(a, ',')
  }

  /** The same inside a list of rules. */
  predicate Printable(known: set<string>, c: Call) {
    PrintableRule(known, c) && AllFree(c.args, ';')
  }

  lemma {:induction false} PiecesNonEmpty(s: string, sep: char)
    requires NoStray(s, sep)
    ensures forall i :: 0 <= i < |Split(s, sep)| ==> Split(s, sep)[i] != ""
    decreases |s|
  {
    if |s| > 1 {
      var t := s[1..];
      if s[1] == sep {
        assert NoStray(t[1..], sep) by {
          assert forall i :: 0 <= i < |t[1..]| ==> t[1..][i] == s[i + 2];
        }
        PiecesNonEmpty(t[1..], sep);
        assert Split(t, sep) == [""] + Split(t[1..], sep);
      } else {
        assert NoStray(t, sep) by {
          assert forall i :: 0 <= i < |t| ==> t[i] == s[i + 1];
        }
        PiecesNonEmpty(t, sep);
      }
    }
  }

  /** Taking fields and joining them again leaves text without stray separators alone. */
  lemma FieldsJoin(s: string, sep: char)
    requires NoStray(s, sep)
    ensures Join(Fields(s, sep), sep) == s && Fields(s, sep) != []
  {
    PiecesNonEmpty(s, sep);
    NonEmptyAll(Split(s, sep));
    JoinSplit(s, sep);
  }

  lemma FieldsOfJoin(parts: seq<string>, sep: char)
    requires parts != [] && forall i :: 0 <= i < |parts| ==> parts[i] != "" && Free(parts[i], sep)
    ensures Fields(Join(parts, sep), sep) == parts
  {
    SplitJoin(parts, sep);
    NonEmptyAll(parts);
  }

  predicate PlainName(name: string) {
    name != "" && Trimmed(name) && Free(name, ':') && Free(name, ';')
  }

  ghost predicate PlainNames(known: set<string>) {
    forall name :: name in known ==> PlainName(name)
  }

  lemma PrintedRuleParses(known: set<string>, c: Call)
    requires PrintableRule(known, c) && PlainNames(known)
    ensures ParseRule(known, Print(c)) == Rule(c)
  {
    var text := Join(c.args, ',');
    assert PlainName(c.name);
    SplitFirst(c.name, text, ':');
    assert Fields(Print(c), ':') == [c.name] + Fields(text, ':');
    FieldsJoin(text, ':');
    assert Fields(Print(c), ':')[1..] == Fields(text, ':');
    FieldsOfJoin(c.args, ',');
    TrimSpaceTrims(c.name);
    TrimAllPlain(c.args);
  }

  lemma TrimAllPlain(args: seq<string>)
    requires forall i :: 0 <= i < |args| ==> PlainArgument(args[i])
    ensures TrimAll(args) == args
  {
    forall i | 0 <= i < |args| ensures TrimSpace(args[i]) == args[i] {
      assert PlainArgument(args[i]);
      TrimSpaceTrims(args[i]);
    }
  }

  lemma {:induction false} JoinFree(parts: seq<string>, sep: char, c: char)
    requires c != sep && AllFree(parts, c)
    ensures Free(Join(parts, sep), c)
  {
    if |parts| > 1 {
      assert Free(parts[0], c);
      assert AllFree(parts[1..], c);
      JoinFree(parts[1..], sep, c);
    } else if |parts| == 1 {
      assert Free(parts[0], c);
    }
  }

  lemma PrintFree(known: set<string>, c: Call)
    requires Printable(known, c) && PlainNames(known)
    ensures Print(c) != "" && Free(Print(c), ';')
  {
    assert PlainName(c.name);
    JoinFree(c.args, ',', ';');
  }

  lemma {:induction false} ParsePrinted(known: set<string>, calls: seq<Call>)
    requires PlainNames(known)
    requires forall i :: 0 <= i < |calls| ==> Printable(known, calls[i])
    ensures ParseAll(known, PrintEach(calls)) == Outcome(calls, None)
  {
    if calls != [] {
      PrintedRuleParses(known, calls[0]);
      ParsePrinted(known, calls[1..]);
      PrintedStep(known, calls);
    }
  }

  lemma PrintedStep(known: set<string>, calls: seq<Call>)
    requires calls != [] && ParseRule(known, Print(calls[0])) == Rule(calls[0])
    requires ParseAll(known, PrintEach(calls[1..])) == Outcome(calls[1..], None)
    ensures ParseAll(known, PrintEach(calls)) == Outcome(calls, None)
  {
    PrintEachStep(calls);
    ParseAllStep(known, PrintEach(calls), calls[0]);
    assert [calls[0]] + calls[1..] == calls;
  }

  lemma PrintEachStep(calls: seq<Call>)
    requires calls != []
    ensures PrintEach(calls)[0] == Print(calls[0]) && PrintEach(calls)[1..] == PrintEach(calls[1..])
  {
  }

  lemma ParseAllStep(known: set<string>, rules: seq<string>, c: Call)
    requires rules != [] && ParseRule(known, rules[0]) == Rule(c)
    ensures ParseAll(known, rules)
        == Outcome([c] + ParseAll(known, rules[1..]).calls, ParseAll(known, rules[1..]).error)
  {
  }

  lemma PrintedListParses(known: set<string>, calls: seq<Call>)
    requires PlainNames(known) && calls != [] && forall i :: 0 <= i < |calls| ==> Printable(known, calls[i])
    ensures Parse(known, PrintAll(calls)) == Outcome(calls, None)
  {
    var parts := PrintEach(calls);
    forall i | 0 <= i < |parts| ensures parts[i] != "" && Free(parts[i], ';') {
      PrintFree(known, calls[i]);
    }
    FieldsOfJoin(parts, ';');
    ParsePrinted(known, calls);
    NoFieldsOfNothing(';');
  }

  // ---------- parsing never lengthens a rule ----------

  lemma {:induction false} JoinNoStray(parts: seq<string>, sep: char)
    requires parts != [] && forall i :: 0 <= i < |parts| ==> parts[i] != "" && Free(parts[i], sep)
    ensures NoStray(Join(parts, sep), sep)
  {
    FreeNoStray(parts[0], sep);
    if |parts| > 1 {
      JoinNoStray(parts[1..], sep);
      NoStrayConcat(parts[0], Join(parts[1..], sep), sep);
    }
  }

  lemma FreeNoStray(s: string, sep: char)
    requires s != "" && Free(s, sep)
    ensures NoStray(s, sep)
  {
  }

  lemma NoStrayConcat(a: string, b: string, sep: char)
    requires NoStray(a, sep) && NoStray(b, sep)
    ensures NoStray(a + [sep] + b, sep)
  {
    var s := a + [sep] + b;
    forall i | 0 < i < |s| ensures s[i - 1] != sep || s[i] != sep {
      if i < |a| {
        assert s[i - 1] == a[i - 1] && s[i] == a[i];
      } else if i > |a| + 1 {
        assert s[i - 1] == b[i - |a| - 2] && s[i] == b[i - |a| - 1];
      }
    }
  }

  lemma {:induction false} TrimAllWeight(args: seq<string>)
    ensures Weight(TrimAll(args)) <= Weight(args)
    ensures Weight(TrimAll(args)) == Weight(args) ==> TrimAll(args) == args
  {
    if args != [] {
      TrimSpaceShrinks(args[0]);
      TrimAllWeight(args[1..]);
      assert TrimAll(args)[1..] == TrimAll(args[1..]);
      assert args == [args[0]] + args[1..];
      assert TrimAll(args) == [TrimSpace(args[0])] + TrimAll(args[1..]);
    }
  }

  lemma PrintWeight(c: Call)
    requires c.args != []
    ensures |Print(c)| == |c.name| + Weight(c.args)
  {
    JoinWeight(c.args, ',');
  }

  /** What a rule without an error consists of. */
  lemma ParsedParts(known: set<string>, rule: string, c: Call) returns (name: string, text: string)
    requires ParseRule(known, rule) == Rule(c)
    ensures |Fields(rule, ':')| > 1 && name == Fields(rule, ':')[0] && text == Join(Fields(rule, ':')[1..], ':')
    ensures c == Call(TrimSpace(name), TrimAll(Fields(text, ','))) && c.args != [] && c.name in known
    ensures |name| + 1 + |text| <= |rule|
    ensures |name| + 1 + |text| == |rule| ==> rule == name + [':'] + text
  {
    var fields := Fields(rule, ':');
    name, text := fields[0], Join(fields[1..], ':');
    NoFieldsOfNothing(',');
    FieldsWeight(rule, ':');
    JoinWeight(fields[1..], ':');
  }

  lemma ArgumentsShrink(text: string)
    ensures Weight(TrimAll(Fields(text, ','))) <= |text| + 1
    ensures Weight(TrimAll(Fields(text, ','))) == |text| + 1
            ==> TrimAll(Fields(text, ',')) == Fields(text, ',') && Join(Fields(text, ','), ',') == text
  {
    FieldsWeight(text, ',');
    TrimAllWeight(Fields(text, ','));
  }

  /** A parsed call prints no longer than the rule, and as long only when the rule is that print. */
  lemma ParseShrinks(known: set<string>, rule: string, c: Call)
    requires ParseRule(known, rule) == Rule(c)
    ensures |Print(c)| <= |rule|
    ensures |Print(c)| == |rule| ==> rule == Print(c) && PrintableRule(known, c)
  {
    var name, text := ParsedParts(known, rule, c);
    TrimSpaceShrinks(name);
    ArgumentsShrink(text);
    PrintWeight(c);
    if |Print(c)| == |rule| {
      RestNoStray(rule, ':');
      TrimmedFields(text);
      assert c == Call(name, Fields(text, ','));
    }
  }

  lemma TrimmedFields(text: string)
    requires TrimAll(Fields(text, ',')) == Fields(text, ',')
    ensures forall i :: 0 <= i < |Fields(text, ',')| ==> PlainArgument(Fields(text, ',')[i])
  {
    var args := Fields(text, ',');
    forall i | 0 <= i < |args| ensures PlainArgument(args[i]) {
      TrimSpaceTrims(args[i]);
      FieldsPieces(text, ',', args[i]);
    }
  }

  lemma NoFieldsOfNothing(sep: char)
    ensures Fields("", sep) == []
  {
    assert Split("", sep) == [""];
    assert NonEmpty([""]) == NonEmpty([""][1..]);
  }

  lemma RestNoStray(rule: string, sep: char)
    requires |Fields(rule, sep)| > 1
    ensures NoStray(Join(Fields(rule, sep)[1..], sep), sep)
  {
    var rest := Fields(rule, sep)[1..];
    forall i | 0 <= i < |rest| ensures rest[i] != "" && Free(rest[i], sep) {
      assert rest[i] in Fields(rule, sep);
      FieldsPieces(rule, sep, rest[i]);
    }
    JoinNoStray(rest, sep);
  }

  lemma ParsedHead(known: set<string>, rules: seq<string>, calls: seq<Call>)
    requires rules != [] && ParseAll(known, rules) == Outcome(calls, None)
    ensures calls != [] && ParseRule(known, rules[0]) == Rule(calls[0])
    ensures ParseAll(known, rules[1..]) == Outcome(calls[1..], None)
  {
    ParseAllStep(known, rules, ParseRule(known, rules[0]).call);
  }

  lemma WeightStep(parts: seq<string>, p: string, rest: seq<string>)
    requires parts != [] && parts[0] == p && parts[1..] == rest
    ensures Weight(parts) == |p| + 1 + Weight(rest) && parts == [p] + rest
  {
  }

  lemma {:induction false} ParseAllShrinks(known: set<string>, rules: seq<string>, calls: seq<Call>)
    requires ParseAll(known, rules) == Outcome(calls, None)
    ensures Weight(PrintEach(calls)) <= Weight(rules)
    ensures Weight(PrintEach(calls)) == Weight(rules) ==>
              PrintEach(calls) == rules && forall i :: 0 <= i < |calls| ==> PrintableRule(known, calls[i])
  {
    if rules != [] {
      ParsedHead(known, rules, calls);
      ParseShrinks(known, rules[0], calls[0]);
      ParseAllShrinks(known, rules[1..], calls[1..]);
      PrintEachStep(calls);
      WeightStep(rules, rules[0], rules[1..]);
      WeightStep(PrintEach(calls), Print(calls[0]), PrintEach(calls[1..]));
    }
  }

  // ---------- the round trips ----------

  /** Parsing a printed rule gives it back exactly when it is a rule the language can express. */
  lemma RuleRoundTrip(known: set<string>, c: Call)
    requires PlainNames(known)
    ensures ParseRule(known, Print(c)) == Rule(c) <==> PrintableRule(known, c)
  {
    if PrintableRule(known, c) {
      PrintedRuleParses(known, c);
    } else if ParseRule(known, Print(c)) == Rule(c) {
      ParseShrinks(known, Print(c), c);
    }
  }

  lemma {:induction false} JoinMember(parts: seq<string>, sep: char, i: nat, c: char)
    requires i < |parts| && c in parts[i]
    ensures c in Join(parts, sep)
  {
    if i > 0 {
      JoinMember(parts[1..], sep, i - 1, c);
    }
  }

  lemma ArgumentsFree(c: Call)
    requires Free(Print(c), ';')
    ensures AllFree(c.args, ';')
  {
    forall i | 0 <= i < |c.args| ensures Free(c.args[i], ';') {
      if ';' in c.args[i] {
        JoinMember(c.args, ',', i, ';');
      }
    }
  }

  lemma ParsedListIsPrintable(known: set<string>, calls: seq<Call>)
    requires Parse(known, PrintAll(calls)) == Outcome(calls, None)
    ensures calls != [] && forall i :: 0 <= i < |calls| ==> Printable(known, calls[i])
  {
    var parts, rules := PrintEach(calls), Fields(PrintAll(calls), ';');
    JoinWeight(parts, ';');
    FieldsWeight(PrintAll(calls), ';');
    ParseAllShrinks(known, rules, calls);
    forall i | 0 <= i < |calls| ensures Printable(known, calls[i]) {
      assert rules[i] == parts[i] == Print(calls[i]);
      FieldsPieces(PrintAll(calls), ';', rules[i]);
      ArgumentsFree(calls[i]);
    }
  }

  /** Parsing gives back a printed list exactly when it is not empty and the language can express each of its rules. */
  lemma RoundTrip(known: set<string>, calls: seq<Call>)
    requires PlainNames(known)
    ensures Parse(known, PrintAll(calls)) == Outcome(calls, None)
       <==> calls != [] && forall i :: 0 <= i < |calls| ==> Printable(known, calls[i])
  {
    if Parse(known, PrintAll(calls)) == Outcome(calls, None) {
      ParsedListIsPrintable(known, calls);
    } else if calls != [] && forall i :: 0 <= i < |calls| ==> Printable(known, calls[i]) {
      PrintedListParses(known, calls);
    }
  }

  // ---------- what parsing yields on any text ----------

  predicate WellFormed(known: set<string>, c: Call) {
    && c.name in known && c.args != []
    && forall i :: 0 <= i < |c.args| ==> Trimmed(c.args[i]) && Free(c.args[i], ',')
  }

  lemma ParsedRuleWellFormed(known: set<string>, rule: string)
    requires ParseRule(known, rule).Rule?
    ensures WellFormed(known, ParseRule(known, rule).call)
  {
    var text := Join(Fields(rule, ':')[1..], ':');
    var args := Fields(text, ',');
    forall i | 0 <= i < |args| ensures Trimmed(TrimSpace(args[i])) && Free(TrimSpace(args[i]), ',') {
      TrimSpaceTrims(args[i]);
      FieldsPieces(text, ',', args[i]);
      if ',' in TrimSpace(args[i]) {
        TrimSpaceMembers(args[i], ',');
      }
    }
  }

  /** Whatever the text, the functions called are known ones with trimmed, comma-free arguments. */
  lemma {:induction false} ParsedWellFormed(known: set<string>, rules: seq<string>)
    ensures forall c :: c in ParseAll(known, rules).calls ==> WellFormed(known, c)
  {
    if rules != [] && ParseRule(known, rules[0]).Rule? {
      ParsedRuleWellFormed(known, rules[0]);
      ParsedWellFormed(known, rules[1..]);
    }
  }

  // ---------- which texts are errors ----------

  /** A rule names no function exactly when it consists of colons. */
  lemma NoFunctionExactly(known: set<string>, rule: string)
    ensures ParseRule(known, rule) == Bad(NoFunction(rule)) <==> forall i :: 0 <= i < |rule| ==> rule[i] == ':'
  {
    NoFieldsExactly(rule, ':');
  }

  /** A run of commas, with colons around it and none inside. */
  predicate CommasAmidColons(rest: string, i: nat, j: nat) {
    i <= j <= |rest| && Only(rest[..i], ':') && Only(rest[i..j], ',') && Only(rest[j..], ':')
  }

  lemma CommasGiveNoArguments(rest: string, i: nat, j: nat)
    requires CommasAmidColons(rest, i, j)
    ensures Fields(Join(Fields(rest, ':'), ':'), ',') == []
  {
    var a, b, c := rest[..i], rest[i..j], rest[j..];
    assert rest == a + (b + c);
    FieldsSkip(a, b + c, ':');
    OnlyHasNoFields(c, ':');
    if b == "" {
      assert b + c == c;
      OnlyHasNoFields("", ',');
    } else {
      FieldsNext(b, c, ':');
      assert Join([b], ':') == b;
      OnlyHasNoFields(b, ',');
    }
  }

  lemma NoArgumentsAreCommas(rest: string) returns (i: nat, j: nat)
    requires Fields(Join(Fields(rest, ':'), ':'), ',') == []
    ensures CommasAmidColons(rest, i, j)
  {
    var fields := Fields(rest, ':');
    var text := Join(fields, ':');
    NoFieldsExactly(text, ',');
    var seps, p, tail := FirstRun(rest, ':');
    i, j := |seps|, |seps| + |p|;
    assert rest == seps + (p + tail);
    assert rest[..i] == seps && rest[i..j] == p && rest[j..] == tail;
    if p != "" {
      FieldsSkip(seps, p + tail, ':');
      FieldsNext(p, tail, ':');
      NoFieldsExactly(tail, ':');
      TextBegins(p, Fields(tail, ':'), text);
      assert forall k :: 0 <= k < |p| ==> p[k] == text[k];
    }
  }

  lemma TextBegins(p: string, fields: seq<string>, text: string)
    requires text == Join([p] + fields, ':')
    ensures p <= text
    ensures fields != [] ==> |p| < |text| && text[|p|] == ':'
  {
    assert ([p] + fields)[1..] == fields;
  }

  /**
   The errors of a rule that names a function: the first run without colons, when its trimmed form is not
   known; no arguments, when nothing but colons and one run of commas follows. All other rules are parsed.
   */
  lemma RuleErrorsExactly(known: set<string>, colons: string, name: string, rest: string)
    requires Only(colons, ':') && name != "" && Free(name, ':') && (rest == "" || rest[0] == ':')
    ensures
      var rule := colons + name + rest;
      if TrimSpace(name) !in known then ParseRule(known, rule) == Bad(UnknownFunction(rule, name))
      else if exists i, j :: CommasAmidColons(rest, i, j) then ParseRule(known, rule) == Bad(NoArguments(rule))
      else ParseRule(known, rule).Rule? && ParseRule(known, rule).call.name == TrimSpace(name)
  {
    var rule := colons + name + rest;
    NameAndRest(colons, name, rest);
    if Fields(Join(Fields(rest, ':'), ':'), ',') == [] {
      var i, j := NoArgumentsAreCommas(rest);
    } else if i, j :| CommasAmidColons(rest, i, j) {
      CommasGiveNoArguments(rest, i, j);
    }
  }

  lemma NameAndRest(colons: string, name: string, rest: string)
    requires Only(colons, ':') && name != "" && Free(name, ':') && (rest == "" || rest[0] == ':')
    ensures Fields(colons + name + rest, ':') == [name] + Fields(rest, ':')
    ensures Fields(colons + name + rest, ':')[0] == name && Fields(colons + name + rest, ':')[1..] == Fields(rest, ':')
  {
    assert colons + name + rest == colons + (name + rest);
    FieldsSkip(colons, name + rest, ':');
    FieldsNext(name, rest, ':');
  }

  lemma NonEmptyFirst(p: string, parts: seq<string>)
    requires p != ""
    ensures NonEmpty([p] + parts) == [p] + NonEmpty(parts)
    ensures ([p] + NonEmpty(parts))[0] == p && ([p] + NonEmpty(parts))[1..] == NonEmpty(parts)
  {
    assert ([p] + parts)[1..] == parts;
  }

  /** Spaces around the function and around each argument make no difference, and empty arguments are left out. */
  lemma SpacesDoNotMatter(known: set<string>, name: string, args: seq<string>)
    requires name != "" && Free(name, ':') && TrimSpace(name) in known
    requires AllFree(args, ',') && NoStray(Join(args, ','), ':') && NonEmpty(args) != []
    ensures ParseRule(known, name + ":" + Join(args, ',')) == Rule(Call(TrimSpace(name), TrimAll(NonEmpty(args))))
  {
    var text := Join(args, ',');
    SplitFirst(name, text, ':');
    NonEmptyFirst(name, Split(text, ':'));
    FieldsJoin(text, ':');
    SplitJoin(args, ',');
  }

  /** Leading, trailing and doubled colons make no difference. */
  lemma StrayColonsDoNotMatter(known: set<string>, rule: string)
    requires Fields(rule, ':') != []
    ensures
      var clean := Join(Fields(rule, ':'), ':');
      && NoStray(clean, ':')
      && (ParseRule(known, rule).Rule? <==> ParseRule(known, clean).Rule?)
      && (ParseRule(known, rule).Rule? ==> ParseRule(known, rule) == ParseRule(known, clean))
  {
    var fields := Fields(rule, ':');
    forall i | 0 <= i < |fields| ensures fields[i] != "" && Free(fields[i], ':') {
      assert fields[i] in fields;
      FieldsPieces(rule, ':', fields[i]);
    }
    JoinNoStray(fields, ':');
    FieldsOfJoin(fields, ':');
  }

  /** `o` has the calls of the rules before the first erroneous one, each of its own rule, and that rule's error. */
  predicate StopsAtError(known: set<string>, rules: seq<string>, o: Outcome) {
    var n := |o.calls|;
    && n <= |rules| && (o.error == None <==> n == |rules|)
    && (forall i :: 0 <= i < n ==> ParseRule(known, rules[i]) == Rule(o.calls[i]))
    && (n < |rules| ==> ParseRule(known, rules[n]) == Bad(o.error.value))
  }

  lemma OneRuleMore(known: set<string>, rules: seq<string>, c: Call, rest: Outcome)
    requires rules != [] && ParseRule(known, rules[0]) == Rule(c) && StopsAtError(known, rules[1..], rest)
    ensures StopsAtError(known, rules, Outcome([c] + rest.calls, rest.error))
  {
    var calls := [c] + rest.calls;
    forall i | 0 <= i < |calls| ensures ParseRule(known, rules[i]) == Rule(calls[i]) {
      if i > 0 {
        assert rules[i] == rules[1..][i - 1] && calls[i] == rest.calls[i - 1];
      }
    }
    assert |calls| < |rules| ==> rules[|calls|] == rules[1..][|rest.calls|];
  }

  /** Parsing stops at the first erroneous rule, with the calls of all rules before it. */
  lemma {:induction false} CallsBeforeFirstError(known: set<string>, rules: seq<string>)
    ensures StopsAtError(known, rules, ParseAll(known, rules))
  {
    if rules != [] && ParseRule(known, rules[0]).Rule? {
      CallsBeforeFirstError(known, rules[1..]);
      var c := ParseRule(known, rules[0]).call;
      ParseAllStep(known, rules, c);
      OneRuleMore(known, rules, c, ParseAll(known, rules[1..]));
    }
  }

  /** An expression is an empty rule exactly when it is empty; otherwise its rules are the runs between semicolons. */
  lemma EmptyRuleExactly(known: set<string>, expression: string)
    ensures Parse(known, expression).error == Some(EmptyRule) <==> expression == ""
    ensures expression != "" ==> Parse(known, expression) == ParseAll(known, Fields(expression, ';'))
  {
    CallsBeforeFirstError(known, Fields(expression, ';'));
  }

  // ---------- the domains of a rule ----------

  /** The domain `d` is argument `a` with every character in lower case. */
  predicate Lowered(lower: char -> char, a: string, d: string) {
    |d| == |a| && forall j :: 0 <= j < |a| ==> d[j] == lower(a[j])
  }

  /** A domain with spaces around it is canonical in lower case and without them. */
  lemma CanonicalExactly(lower: char -> char, before: string, domain: string, after: string)
    requires AllSpace(before) && AllSpace(after) && Trimmed(domain)
    ensures Lowered(lower, domain, Canonical(lower, before + domain + after))
  {
    TrimSpacePad(before, domain, after);
  }

  /** On any text without an error the domains are the `Host` arguments in lower case, in order, and nothing else. */
  lemma DomainsAreHostArguments(known: set<string>, expression: string, lower: char -> char)
    ensures
      var hosts := HostArguments(Parse(known, expression).calls);
      var domains := CanonicalAll(lower, hosts);
      |domains| == |hosts| && forall i :: 0 <= i < |hosts| ==> Lowered(lower, hosts[i], domains[i])
  {
    var calls := Parse(known, expression).calls;
    ParsedWellFormed(known, Fields(expression, ';'));
    forall i | 0 <= i < |HostArguments(calls)|
      ensures Lowered(lower, HostArguments(calls)[i], Canonical(lower, HostArguments(calls)[i]))
    {
      HostsTrimmed(known, calls);
      TrimSpaceTrims(HostArguments(calls)[i]);
    }
  }

  /** An argument of a call, by the index of each. */
  datatype Position = Position(call: nat, arg: nat)

  predicate IsHostArgument(calls: seq<Call>, p: Position) {
    p.call < |calls| && calls[p.call].name == "Host" && p.arg < |calls[p.call].args|
  }

  predicate Precedes(p: Position, q: Position) {
    p.call < q.call || (p.call == q.call && p.arg < q.arg)
  }

  predicate Increasing(at: seq<Position>) {
    forall i, j :: 0 <= i < j < |at| ==> Precedes(at[i], at[j])
  }

  /** Each of `hosts` is the argument of `Host` at its position. */
  predicate StandAt(calls: seq<Call>, hosts: seq<string>, at: seq<Position>) {
    && |at| == |hosts|
    && forall i :: 0 <= i < |at| ==> IsHostArgument(calls, at[i]) && hosts[i] == calls[at[i].call].args[at[i].arg]
  }

  ghost predicate CoversHosts(calls: seq<Call>, at: seq<Position>) {
    forall p :: IsHostArgument(calls, p) ==> p in at
  }

  lemma {:induction false} HostPositions(calls: seq<Call>) returns (at: seq<Position>)
    ensures StandAt(calls, HostArguments(calls), at) && Increasing(at) && CoversHosts(calls, at)
  {
    at := [];
    if calls != [] {
      var rest := HostPositions(calls[1..]);
      var args := if calls[0].name == "Host" then calls[0].args else [];
      at := OfFirst(|args|) + Later(rest);
      PrependStands(calls, args, HostArguments(calls[1..]), rest);
      PrependIncreases(|args|, rest);
      PrependCovers(calls, args, rest);
    }
  }

  function OfFirst(n: nat): seq<Position> {
    seq(n, i requires 0 <= i < n => Position(0, i))
  }

  /** The positions when one more call stands before the others. */
  function Later(at: seq<Position>): seq<Position> {
    seq(|at|, i requires 0 <= i < |at| => Position(at[i].call + 1, at[i].arg))
  }

  lemma PrependStands(calls: seq<Call>, args: seq<string>, hosts: seq<string>, rest: seq<Position>)
    requires calls != [] && args == (if calls[0].name == "Host" then calls[0].args else [])
    requires StandAt(calls[1..], hosts, rest)
    ensures StandAt(calls, args + hosts, OfFirst(|args|) + Later(rest))
  {
    var at := OfFirst(|args|) + Later(rest);
    forall i | 0 <= i < |at|
      ensures IsHostArgument(calls, at[i]) && (args + hosts)[i] == calls[at[i].call].args[at[i].arg]
    {
      if i >= |args| {
        var q := rest[i - |args|];
        assert IsHostArgument(calls[1..], q) && at[i] == Position(q.call + 1, q.arg);
      }
    }
  }

  lemma PrependIncreases(n: nat, rest: seq<Position>)
    requires Increasing(rest)
    ensures Increasing(OfFirst(n) + Later(rest))
  {
    var at := OfFirst(n) + Later(rest);
    forall i, j | 0 <= i < j < |at| ensures Precedes(at[i], at[j]) {
      if i >= n {
        assert Precedes(rest[i - n], rest[j - n]);
      }
    }
  }

  lemma PrependCovers(calls: seq<Call>, args: seq<string>, rest: seq<Position>)
    requires calls != [] && args == (if calls[0].name == "Host" then calls[0].args else [])
    requires CoversHosts(calls[1..], rest)
    ensures CoversHosts(calls, OfFirst(|args|) + Later(rest))
  {
    var first, later := OfFirst(|args|), Later(rest);
    forall p | IsHostArgument(calls, p) ensures p in first + later {
      if p.call == 0 {
        assert first[p.arg] == p;
      } else {
        var q := Position(p.call - 1, p.arg);
        assert IsHostArgument(calls[1..], q);
        var i :| 0 <= i < |rest| && rest[i] == q;
        assert later[i] == p;
      }
    }
  }

  /**
   On any text the domains correspond, in order, to all arguments of all calls named `Host`, and each is its
   argument in lower case.
   */
  lemma DomainsExactly(known: set<string>, expression: string, lower: char -> char) returns (at: seq<Position>)
    ensures
      var calls := Parse(known, expression).calls;
      var domains := CanonicalAll(lower, HostArguments(calls));
      && |at| == |domains| && Increasing(at)
      && (forall i :: 0 <= i < |at| ==>
            && at[i].call < |calls| && calls[at[i].call].name == "Host" && at[i].arg < |calls[at[i].call].args|
            && Lowered(lower, calls[at[i].call].args[at[i].arg], domains[i]))
      && (forall p: Position :: p.call < |calls| && calls[p.call].name == "Host" && p.arg < |calls[p.call].args| ==> p in at)
  {
    var calls := Parse(known, expression).calls;
    at := HostPositions(calls);
    DomainsAreHostArguments(known, expression, lower);
    forall p: Position | p.call < |calls| && calls[p.call].name == "Host" && p.arg < |calls[p.call].args| ensures p in at {
      assert IsHostArgument(calls, p);
    }
    forall i | 0 <= i < |at| ensures IsHostArgument(calls, at[i]) {
    }
  }

  lemma {:induction false} HostsTrimmed(known: set<string>, calls: seq<Call>)
    requires forall c :: c in calls ==> WellFormed(known, c)
    ensures forall i :: 0 <= i < |HostArguments(calls)| ==> Trimmed(HostArguments(calls)[i])
  {
    if calls != [] {
      HostsTrimmed(known, calls[1..]);
      assert WellFormed(known, calls[0]);
    }
  }

  // ---------- the functions of the rule language ----------

  const MATCHERS: set<string> := {"Host", "HostRegexp", "Path", "PathPrefix", "Method"}
  const HEADER_MATCHERS: set<string> := {"Headers", "HeadersRegexp", "Query"}
  const STRIPPERS: set<string> := {"PathStrip", "PathStripRegex", "PathPrefixStrip", "PathPrefixStripRegex"}
  const MODIFIERS: set<string> := {"AddPrefix", "ReplacePath", "ReplacePathRegex"}

  /** The names the table of `parseRules` holds. */
  const KNOWN: set<string> := MATCHERS + HEADER_MATCHERS + STRIPPERS + MODIFIERS

  lemma FunctionsExactly(name: string)
    ensures name in KNOWN
       <==> name in {"Host", "HostRegexp", "Path", "PathStrip", "PathStripRegex", "PathPrefix", "PathPrefixStrip",
                     "PathPrefixStripRegex", "Method", "Headers", "HeadersRegexp", "AddPrefix", "ReplacePath",
                     "ReplacePathRegex", "Query"}
  {
  }

  predicate Letters(s: string) {
    forall i :: 0 <= i < |s| ==> 'A' <= s[i] <= 'Z' || 'a' <= s[i] <= 'z'
  }

  lemma LettersArePlain(name: string)
    requires name != "" && Letters(name)
    ensures PlainName(name)
  {
  }

  lemma MatcherNames(name: string)
    requires name in MATCHERS || name in HEADER_MATCHERS
    ensures name != "" && Letters(name)
  {
  }

  lemma ModifierNames(name: string)
    requires name in STRIPPERS || name in MODIFIERS
    ensures name != "" && Letters(name)
  {
  }

  lemma KnownNamesArePlain()
    ensures PlainNames(KNOWN)
  {
    forall name | name in KNOWN ensures PlainName(name) {
      if name in MATCHERS || name in HEADER_MATCHERS {
        MatcherNames(name);
      } else {
        ModifierNames(name);
      }
      LettersArePlain(name);
    }
  }

  /** The round trip for the functions of the rule language itself. */
  lemma RuleLanguageRoundTrip(calls: seq<Call>)
    ensures Parse(KNOWN, PrintAll(calls)) == Outcome(calls, None)
       <==> calls != [] && forall i :: 0 <= i < |calls| ==> Printable(KNOWN, calls[i])
  {
    KnownNamesArePlain();
    RoundTrip(KNOWN, calls);
  }
}
