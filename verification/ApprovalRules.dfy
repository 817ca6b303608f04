/** The approval rule set: ordered rules, and the check that every command of a Bash input must pass. */
module ApprovalRules {
  import opened Options
  import opened Text
  import opened CommandSplit
  import opened SplitTheorems

  const BASH := "Bash"
  const MAX_PATTERN_LEN := 512
  const GLOBAL_AUTO_APPROVE_TOOLS := {"Read", "Glob", "Grep", "ToolSearch"}

  datatype ApprovalMatch =
    | GlobalTool
    | ConfigRule(pattern: string)
    | AlwaysAllowRule(pattern: string)
    | NoMatch
  {
    predicate IsApproved() {
      !NoMatch?
    }
  }

  datatype Rule = Rule(tool: string, pattern: string)

  /** The regular-expression engine, left abstract: which patterns it accepts and what they match. */
  datatype RegexEngine = RegexEngine(accepts: string -> bool, isMatch: (string, Text) -> bool) {
    predicate Compiles(rule: Rule) {
      EncodedLength(rule.pattern) <= MAX_PATTERN_LEN && accepts(rule.pattern)
    }

    /** Rules that do not compile are skipped. */
    function Compiled(rules: seq<Rule>): (r: seq<Rule>)
      ensures forall rule :: rule in r <==> rule in rules && Compiles(rule)
    {
      if rules == [] then []
      else (if Compiles(rules[0]) then [rules[0]] else []) + Compiled(rules[1..])
    }
  }

  /** A tool's input: its `command` field, if it is a string, and the whole input serialized. */
  datatype ToolInput = ToolInput(command: Option<Text>, json: Text)

  /** The text that patterns are matched against. */
  function MatchString(tool: string, input: ToolInput): Text {
    if tool == BASH && input.command.Some? then input.command.value else input.json
  }

  /** The contents of a rule set at one moment. */
  datatype RuleSet = RuleSet(engine: RegexEngine, globals: set<string>, statics: seq<Rule>, dynamics: seq<Rule>) {
    predicate Matches(rule: Rule, tool: string, text: Text) {
      rule.tool == tool && engine.isMatch(rule.pattern, text)
    }

    /** The position of the first rule that matches, or the number of rules. */
    function FirstMatch(rules: seq<Rule>, tool: string, text: Text): (k: nat)
      ensures k <= |rules| && forall i | 0 <= i < k :: !Matches(rules[i], tool, text)
      ensures k < |rules| ==> Matches(rules[k], tool, text)
    {
      if rules == [] || Matches(rules[0], tool, text) then 0
      else 1 + FirstMatch(rules[1..], tool, text)
    }

    /** Static rules come before dynamic ones; within a list, the earliest match is reported. */
    function CheckOne(tool: string, text: Text): ApprovalMatch {
      var k, j := FirstMatch(statics, tool, text), FirstMatch(dynamics, tool, text);
      if k < |statics| then ConfigRule(statics[k].pattern)
      else if j < |dynamics| then AlwaysAllowRule(dynamics[j].pattern)
      else NoMatch
    }

    predicate Approves(tool: string, text: Text) {
      CheckOne(tool, text).IsApproved()
    }

    predicate ApprovesAll(cmds: seq<Text>) {
      forall i | 0 <= i < |cmds| :: Approves(BASH, cmds[i])
    }

    /** What a check of a Bash command line returns. */
    function CheckCommand(c: Text): ApprovalMatch {
      match SplitOf(c)
      case Simple(cmd) => CheckOne(BASH, cmd)
      case Compound(cmds) => if ApprovesAll(cmds) then CheckOne(BASH, cmds[0]) else NoMatch
      case Unparseable => NoMatch
    }

    function Check(tool: string, input: ToolInput): ApprovalMatch {
      if tool in globals then GlobalTool
      else if tool == BASH && input.command.Some? then CheckCommand(input.command.value)
      else CheckOne(tool, MatchString(tool, input))
    }

    /** The rule set after more "always allow" rules. */
    function Grown(added: seq<Rule>): RuleSet {
      this.(dynamics := dynamics + added)
    }
  }

  // ---------------------------------------------------------------------------
  // The rule set as the program holds it
  // ---------------------------------------------------------------------------

  class ApprovalRuleSet {
    const engine: RegexEngine
    const globalTools: set<string>
    const staticRules: seq<Rule>
    var dynamicRules: seq<Rule>

    ghost function Rules(): RuleSet
      reads this
    {
      RuleSet(engine, globalTools, staticRules, dynamicRules)
    }

    constructor (engine: RegexEngine, globalExtra: seq<string>, staticConfigs: seq<Rule>, dbRules: seq<Rule>)
      ensures Rules() == RuleSet(engine, GLOBAL_AUTO_APPROVE_TOOLS + (set t | t in globalExtra),
                                 engine.Compiled(staticConfigs), engine.Compiled(dbRules))
    {
      this.engine := engine;
      globalTools := GLOBAL_AUTO_APPROVE_TOOLS + (set t | t in globalExtra);
      staticRules := engine.Compiled(staticConfigs);
      dynamicRules := engine.Compiled(dbRules);
    }

    /** One tool invocation against all rule layers, in order. */
    method CheckSingle(tool: string, text: Text) returns (m: ApprovalMatch)
      ensures m == Rules().CheckOne(tool, text)
    {
      var i := 0;
      while i < |staticRules|
        invariant i <= |staticRules|
        invariant forall k | 0 <= k < i :: !Rules().Matches(staticRules[k], tool, text)
      {
        if staticRules[i].tool == tool && engine.isMatch(staticRules[i].pattern, text) {
          FirstMatchIs(Rules(), staticRules, tool, text, i);
          return ConfigRule(staticRules[i].pattern);
        }
        i := i + 1;
      }
      FirstMatchIs(Rules(), staticRules, tool, text, i);
      i := 0;
      while i < |dynamicRules|
        invariant i <= |dynamicRules|
        invariant forall k | 0 <= k < i :: !Rules().Matches(dynamicRules[k], tool, text)
      {
        if dynamicRules[i].tool == tool && engine.isMatch(dynamicRules[i].pattern, text) {
          FirstMatchIs(Rules(), dynamicRules, tool, text, i);
          return AlwaysAllowRule(dynamicRules[i].pattern);
        }
        i := i + 1;
      }
      FirstMatchIs(Rules(), dynamicRules, tool, text, i);
      return NoMatch;
    }

    /** The loop over the commands of a compound input: the first match is reported, any miss refuses. */
    method CheckAll(cmds: seq<Text>) returns (m: ApprovalMatch)
      requires cmds != []
      ensures m == if Rules().ApprovesAll(cmds) then Rules().CheckOne(BASH, cmds[0]) else NoMatch
    {
      var firstMatch := NoMatch;
      var i := 0;
      while i < |cmds|
        invariant i <= |cmds|
        invariant forall k | 0 <= k < i :: Rules().Approves(BASH, cmds[k])
        invariant i > 0 ==> firstMatch == Rules().CheckOne(BASH, cmds[0])
      {
        var one := CheckSingle(BASH, cmds[i]);
        if !one.IsApproved() {
          return NoMatch;
        }
        if i == 0 {
          firstMatch := one;
        }
        i := i + 1;
      }
      return firstMatch;
    }

    /** The verdict on a tool's input, and no other. */
    method Check(tool: string, input: ToolInput) returns (m: ApprovalMatch)
      ensures IsVerdict(Rules(), tool, input, m)
      ensures m == Rules().Check(tool, input)
    {
      CheckIsExact(Rules(), tool, input);
      if tool in globalTools {
        return GlobalTool;
      }
      if tool == BASH && input.command.Some? {
        m := CheckBash(input.command.value);
      } else {
        m := CheckSingle(tool, MatchString(tool, input));
      }
    }

    method CheckBash(c: Text) returns (m: ApprovalMatch)
      ensures m == Rules().CheckCommand(c)
    {
      var split := SplitBashCommand(c);
      match split
      case Simple(cmd) => m := CheckSingle(BASH, cmd);
      case Compound(cmds) => m := CheckAll(cmds);
      case Unparseable => m := NoMatch;
    }

    /**
     "Always allow": whatever the rule matches is approved from here on, whatever was approved is approved for the same
     reason as before, and nothing changes for other tools.
     */
    method AddDynamic(rule: Rule)
      modifies this
      ensures Rules() == old(Rules()).Grown([rule])
      ensures forall text | engine.isMatch(rule.pattern, text) :: Rules().Approves(rule.tool, text)
      ensures forall tool, input | old(Rules()).Check(tool, input).IsApproved() ::
                Rules().Check(tool, input) == old(Rules()).Check(tool, input)
      ensures forall tool, text | tool != rule.tool :: Rules().CheckOne(tool, text) == old(Rules()).CheckOne(tool, text)
    {
      ghost var before := Rules();
      dynamicRules := dynamicRules + [rule];
      forall text | engine.isMatch(rule.pattern, text)
        ensures Rules().Approves(rule.tool, text)
      {
        assert rule in dynamicRules && Rules().Matches(rule, rule.tool, text);
        ApprovalNeedsARule(Rules(), rule.tool, text);
      }
      forall tool, input | before.Check(tool, input).IsApproved()
        ensures Rules().Check(tool, input) == before.Check(tool, input)
      {
        GrowthIsMonotone(before, [rule], tool, input);
      }
      forall tool, text | tool != rule.tool
        ensures Rules().CheckOne(tool, text) == before.CheckOne(tool, text)
      {
        GrowthKeepsOne(before, [rule], tool, text);
      }
    }
  }

  lemma {:induction false} FirstMatchIs(rs: RuleSet, rules: seq<Rule>, tool: string, text: Text, i: nat)
    requires i <= |rules| && forall k | 0 <= k < i :: !rs.Matches(rules[k], tool, text)
    requires i < |rules| ==> rs.Matches(rules[i], tool, text)
    ensures rs.FirstMatch(rules, tool, text) == i
  {
    var k := rs.FirstMatch(rules, tool, text);
  }

  // ---------------------------------------------------------------------------
  // The verdict, by the positions of the rules
  // ---------------------------------------------------------------------------

  /** The rule is for the tool, and its pattern matches. */
  predicate Fits(rs: RuleSet, rule: Rule, tool: string, text: Text) {
    rule.tool == tool && rs.engine.isMatch(rule.pattern, text)
  }

  /** Rule `k` fits and no earlier one does. */
  predicate IsEarliest(rs: RuleSet, rules: seq<Rule>, tool: string, text: Text, k: nat) {
    k < |rules| && Fits(rs, rules[k], tool, text) && forall i | 0 <= i < k :: !Fits(rs, rules[i], tool, text)
  }

  predicate NoneFits(rs: RuleSet, rules: seq<Rule>, tool: string, text: Text) {
    forall i | 0 <= i < |rules| :: !Fits(rs, rules[i], tool, text)
  }

  /** The pattern is that of the earliest rule that fits. */
  ghost predicate IsEarliestPattern(rs: RuleSet, rules: seq<Rule>, tool: string, text: Text, pattern: string) {
    exists k: nat :: IsEarliest(rs, rules, tool, text, k) && rules[k].pattern == pattern
  }

  /** What one text matches: the earliest static rule that fits, else the earliest dynamic one, else nothing. */
  ghost predicate IsMatchOf(rs: RuleSet, tool: string, text: Text, m: ApprovalMatch) {
    match m
    case GlobalTool => false
    case ConfigRule(p) => IsEarliestPattern(rs, rs.statics, tool, text, p)
    case AlwaysAllowRule(p) => NoneFits(rs, rs.statics, tool, text) && IsEarliestPattern(rs, rs.dynamics, tool, text, p)
    case NoMatch => NoneFits(rs, rs.statics, tool, text) && NoneFits(rs, rs.dynamics, tool, text)
  }

  predicate SomeFits(rs: RuleSet, text: Text) {
    !NoneFits(rs, rs.statics, "Bash", text) || !NoneFits(rs, rs.dynamics, "Bash", text)
  }

  /** A Bash command line: every command must have a rule that fits, and then the first command's match is the verdict. */
  ghost predicate IsBashVerdict(rs: RuleSet, c: Text, m: ApprovalMatch) {
    match SplitOf(c)
    case Unparseable => m == NoMatch
    case Simple(cmd) => IsMatchOf(rs, "Bash", cmd, m)
    case Compound(cmds) =>
      if forall i | 0 <= i < |cmds| :: SomeFits(rs, cmds[i]) then IsMatchOf(rs, "Bash", cmds[0], m) else m == NoMatch
  }

  ghost predicate IsVerdict(rs: RuleSet, tool: string, input: ToolInput, m: ApprovalMatch) {
    if tool in rs.globals then m == GlobalTool
    else if tool == "Bash" && input.command.Some? then IsBashVerdict(rs, input.command.value, m)
    else IsMatchOf(rs, tool, input.json, m)
  }

  lemma CheckOneIsExact(rs: RuleSet, tool: string, text: Text)
    ensures IsMatchOf(rs, tool, text, rs.CheckOne(tool, text))
    ensures tool == "Bash" ==> (rs.Approves(tool, text) <==> SomeFits(rs, text))
  {
    var k, j := rs.FirstMatch(rs.statics, tool, text), rs.FirstMatch(rs.dynamics, tool, text);
    if k < |rs.statics| {
      assert IsEarliest(rs, rs.statics, tool, text, k);
    } else if j < |rs.dynamics| {
      assert IsEarliest(rs, rs.dynamics, tool, text, j);
    }
  }

  lemma CheckIsExact(rs: RuleSet, tool: string, input: ToolInput)
    ensures IsVerdict(rs, tool, input, rs.Check(tool, input))
  {
    forall text
      ensures IsMatchOf(rs, tool, text, rs.CheckOne(tool, text))
      ensures tool == "Bash" ==> (rs.Approves(tool, text) <==> SomeFits(rs, text))
    {
      CheckOneIsExact(rs, tool, text);
    }
  }

  /** There is one verdict only. */
  lemma VerdictIsUnique(rs: RuleSet, tool: string, input: ToolInput, m: ApprovalMatch)
    requires IsVerdict(rs, tool, input, m)
    ensures m == rs.Check(tool, input)
  {
    forall text, n | IsMatchOf(rs, tool, text, n)
      ensures n == rs.CheckOne(tool, text)
    {
      MatchIsUnique(rs, tool, text, n, rs.CheckOne(tool, text));
    }
    CheckIsExact(rs, tool, input);
    forall text
      ensures tool == "Bash" ==> (rs.Approves(tool, text) <==> SomeFits(rs, text))
    {
      CheckOneIsExact(rs, tool, text);
    }
  }

  lemma MatchIsUnique(rs: RuleSet, tool: string, text: Text, m: ApprovalMatch, n: ApprovalMatch)
    requires IsMatchOf(rs, tool, text, m) && n == rs.CheckOne(tool, text)
    ensures m == n
  {
    CheckOneIsExact(rs, tool, text);
    EarliestIsUnique(rs, rs.statics, tool, text);
    EarliestIsUnique(rs, rs.dynamics, tool, text);
  }

  lemma EarliestIsUnique(rs: RuleSet, rules: seq<Rule>, tool: string, text: Text)
    ensures forall p, q | IsEarliestPattern(rs, rules, tool, text, p) && IsEarliestPattern(rs, rules, tool, text, q) :: p == q
    ensures forall p :: IsEarliestPattern(rs, rules, tool, text, p) ==> !NoneFits(rs, rules, tool, text)
  {
    forall p, q | IsEarliestPattern(rs, rules, tool, text, p) && IsEarliestPattern(rs, rules, tool, text, q)
      ensures p == q
    {
      var j: nat :| IsEarliest(rs, rules, tool, text, j) && rules[j].pattern == p;
      var k: nat :| IsEarliest(rs, rules, tool, text, k) && rules[k].pattern == q;
      assert !(j < k) && !(k < j);
    }
    forall p | IsEarliestPattern(rs, rules, tool, text, p)
      ensures !NoneFits(rs, rules, tool, text)
    {
      var k: nat :| IsEarliest(rs, rules, tool, text, k) && rules[k].pattern == p;
      assert Fits(rs, rules[k], tool, text);
    }
  }

  /** Loading rules keeps their order, and skips exactly those that do not compile. */
  lemma {:induction false} CompiledOfConcat(e: RegexEngine, a: seq<Rule>, b: seq<Rule>)
    ensures e.Compiled(a + b) == e.Compiled(a) + e.Compiled(b)
    ensures forall rule :: e.Compiled([rule]) == if EncodedLength(rule.pattern) <= 512 && e.accepts(rule.pattern) then [rule] else []
  {
    if a == [] {
      assert a + b == b;
    } else {
      assert (a + b)[1..] == a[1..] + b;
      CompiledOfConcat(e, a[1..], b);
    }
  }

  // ---------------------------------------------------------------------------
  // What approval means
  // ---------------------------------------------------------------------------

  predicate ApprovesInput(rs: RuleSet, c: Text) {
    rs.Check(BASH, ToolInput(Some(c), [])).IsApproved()
  }

  /** A text is approved exactly when some rule for the tool matches it. */
  lemma ApprovalNeedsARule(rs: RuleSet, tool: string, text: Text)
    ensures rs.Approves(tool, text) <==>
            exists rule :: rule in rs.statics + rs.dynamics && rs.Matches(rule, tool, text)
  {
    var k, j := rs.FirstMatch(rs.statics, tool, text), rs.FirstMatch(rs.dynamics, tool, text);
    if k < |rs.statics| {
      assert rs.statics[k] in rs.statics + rs.dynamics;
    } else if j < |rs.dynamics| {
      assert rs.dynamics[j] in rs.statics + rs.dynamics;
    }
  }

  /**
   A Bash command line is approved exactly when it can be split and each of its commands is matched by a
   rule; a blank line counts as one empty command. One that cannot be split is never approved.
   */
  lemma BashApprovalIsConjunctive(rs: RuleSet, c: Text)
    requires BASH !in rs.globals
    ensures ApprovesInput(rs, c) <==>
            && SplitOf(c) != Unparseable
            && (SplitOf(c) == Simple([]) ==> rs.Approves(BASH, []))
            && Commands(c).Some? && rs.ApprovesAll(Commands(c).value)
  {
    RunnableHasCommands(c);
    if IsRunnable(c) {
      VerdictApproval(rs, c, Commands(c).value);
    } else if SplitOf(c) == Simple([]) {
      assert Commands(c) == Some([]);
    }
  }

  lemma VerdictApproval(rs: RuleSet, c: Text, cmds: seq<Text>)
    requires cmds != [] && SplitOf(c) == Verdict(cmds)
    ensures rs.CheckCommand(c).IsApproved() <==> rs.ApprovesAll(cmds)
  {
    assert rs.ApprovesAll(cmds) ==> rs.Approves(BASH, cmds[0]);
  }

  /** Two runnable command lines, joined by a separator, are approved exactly when both are. */
  lemma JoinApprovedIffBoth(rs: RuleSet, c1: Text, j: Joiner, c2: Text)
    requires BASH !in rs.globals && IsRunnable(c1) && IsRunnable(c2) && j.Parts(c1, c2)
    ensures ApprovesInput(rs, c1 + j.Show() + c2) <==> ApprovesInput(rs, c1) && ApprovesInput(rs, c2)
  {
    RunnableHasCommands(c1);
    RunnableHasCommands(c2);
    SplitOfJoin(c1, j, c2);
    JoinIsCompositional(c1, j, c2);
    BashApprovalIsConjunctive(rs, c1);
    BashApprovalIsConjunctive(rs, c2);
    BashApprovalIsConjunctive(rs, c1 + j.Show() + c2);
    ApprovesAllOfConcat(rs, Commands(c1).value, Commands(c2).value);
  }

  lemma ApprovesAllOfConcat(rs: RuleSet, a: seq<Text>, b: seq<Text>)
    ensures rs.ApprovesAll(a + b) <==> rs.ApprovesAll(a) && rs.ApprovesAll(b)
  {
    if rs.ApprovesAll(a + b) {
      assert forall i | 0 <= i < |a| :: a[i] == (a + b)[i];
      assert forall i | 0 <= i < |b| :: b[i] == (a + b)[|a| + i];
    }
  }

  // ---------------------------------------------------------------------------
  // Growing the rule set
  // ---------------------------------------------------------------------------

  /** More rules never change the reason given for a text that was already approved. */
  lemma GrowthKeepsOne(rs: RuleSet, added: seq<Rule>, tool: string, text: Text)
    ensures rs.Approves(tool, text) ==> rs.Grown(added).CheckOne(tool, text) == rs.CheckOne(tool, text)
    ensures rs.Grown(added).Approves(tool, text) && !rs.Approves(tool, text) ==>
            exists rule :: rule in added && rs.Matches(rule, tool, text)
  {
    var grown := rs.Grown(added);
    var j, j' := rs.FirstMatch(rs.dynamics, tool, text), grown.FirstMatch(grown.dynamics, tool, text);
    SameFirstMatch(rs, grown, rs.statics, tool, text);
    if j < |rs.dynamics| {
      FirstMatchIs(grown, grown.dynamics, tool, text, j);
    } else if j' < |grown.dynamics| {
      assert j' >= |rs.dynamics| by {
        assert j' < |rs.dynamics| ==> !rs.Matches(rs.dynamics[j'], tool, text);
      }
      var rule := added[j' - |rs.dynamics|];
      assert grown.dynamics[j'] == rule && rs.Matches(rule, tool, text);
    }
  }

  lemma SameFirstMatch(rs: RuleSet, other: RuleSet, rules: seq<Rule>, tool: string, text: Text)
    requires rs.engine == other.engine
    ensures rs.FirstMatch(rules, tool, text) == other.FirstMatch(rules, tool, text)
  {
    FirstMatchIs(rs, rules, tool, text, other.FirstMatch(rules, tool, text));
  }

  /**
   Growth is monotone and keeps its reasons: an input approved before is approved after, with the same match.
   An input newly approved has at least one command that an added rule matches and no earlier rule did.
   */
  lemma GrowthIsMonotone(rs: RuleSet, added: seq<Rule>, tool: string, input: ToolInput)
    ensures rs.Check(tool, input).IsApproved() ==> rs.Grown(added).Check(tool, input) == rs.Check(tool, input)
    ensures rs.Grown(added).Check(tool, input).IsApproved() && !rs.Check(tool, input).IsApproved() ==>
            exists text, rule :: IsChecked(tool, input, text) && rule in added && rs.Matches(rule, tool, text)
                                 && !rs.Approves(tool, text)
  {
    forall text
      ensures rs.Approves(tool, text) ==> rs.Grown(added).CheckOne(tool, text) == rs.CheckOne(tool, text)
      ensures rs.Grown(added).Approves(tool, text) && !rs.Approves(tool, text) ==>
              exists rule :: rule in added && rs.Matches(rule, tool, text)
    {
      GrowthKeepsOne(rs, added, tool, text);
    }
    if rs.Grown(added).Check(tool, input).IsApproved() && !rs.Check(tool, input).IsApproved() {
      var text := NewlyApproved(rs, added, tool, input);
      var rule :| rule in added && rs.Matches(rule, tool, text);
      assert IsChecked(tool, input, text);
    }
  }

  /** `text` is one of the texts that a check of `input` looks up. */
  predicate IsChecked(tool: string, input: ToolInput, text: Text) {
    if tool == BASH && input.command.Some? then
      match SplitOf(input.command.value)
      case Simple(cmd) => text == cmd
      case Compound(cmds) => text in cmds
      case Unparseable => false
    else text == MatchString(tool, input)
  }

  lemma NewlyApproved(rs: RuleSet, added: seq<Rule>, tool: string, input: ToolInput) returns (text: Text)
    requires rs.Grown(added).Check(tool, input).IsApproved() && !rs.Check(tool, input).IsApproved()
    ensures IsChecked(tool, input, text)
    ensures rs.Grown(added).Approves(tool, text) && !rs.Approves(tool, text)
  {
    if tool == BASH && input.command.Some? {
      match SplitOf(input.command.value)
      case Simple(cmd) => text := cmd;
      case Compound(cmds) =>
        var i :| 0 <= i < |cmds| && !rs.Approves(BASH, cmds[i]);
        text := cmds[i];
    } else {
      text := MatchString(tool, input);
    }
  }
}
