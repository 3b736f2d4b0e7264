/** Configuration lines, the rules they stand for, and what a list of rules says about a domain. */
module UpstreamRules {
  import opened Bytes
  import opened Strings

  /** An upstream server, known by its address. */
  datatype Upstream = Upstream(address: string)

  /** Foreign code the parser calls: building an upstream from an address, and validating a domain. */
  datatype Env = Env(make: string -> Option<Upstream>, validDomain: string -> bool)

  const UNQUALIFIED_NAMES := "unqualified_names"

  datatype SplitLine = BadLine | Split(upstreams: seq<string>, domains: seq<string>)

  /** A domain as written between the slashes, in the form used as a key. */
  function DomainKey(confHost: string): string {
    if confHost == "" then UNQUALIFIED_NAMES else Lower(confHost + ".")
  }

  predicate DomainAccepted(env: Env, confHost: string) {
    confHost == "" || env.validDomain(TrimPrefix(confHost, "*."))
  }

  function DomainKeys(confHosts: seq<string>): (r: seq<string>)
    ensures |r| == |confHosts|
  {
    seq(|confHosts|, i requires 0 <= i < |confHosts| => DomainKey(confHosts[i]))
  }

  function SplitConfigLine(env: Env, line: string): SplitLine {
    if !("[/" <= line) then Split([line], [])
    else
      var rest := line[2..];
      var i := IndexOf(rest, "/]");
      if i + 2 >= |rest| then BadLine else SplitParts(env, rest[..i], rest[i + 2..])
  }

  predicate AllAccepted(env: Env, confHosts: seq<string>) {
    forall k :: 0 <= k < |confHosts| ==> DomainAccepted(env, confHosts[k])
  }

  function SplitParts(env: Env, domainsLine: string, upstreamsLine: string): SplitLine {
    var confHosts := Strings.Split(domainsLine, '/');
    if AllAccepted(env, confHosts)
    then Split(Fields(upstreamsLine), DomainKeys(confHosts))
    else BadLine
  }

  /** One effect of one line: a default upstream, a reserved upstream for a host, or an exclusion. */
  datatype Rule = Default(up: Upstream) | Reserve(host: string, up: Upstream) | Exclude(host: string)

  predicate IsWild(host: string) { "*." <= host }

  predicate Blank(line: string) { line == "" || line[0] == '#' }

  predicate IsExclusion(sp: SplitLine) {
    sp.Split? && |sp.upstreams| > 0 && sp.upstreams[0] == "#" && |sp.domains| > 0
  }

  /** A line whose upstream part has no field: the parser indexes its first field. */
  predicate LacksUpstream(env: Env, line: string) {
    var sp := SplitConfigLine(env, line);
    !Blank(line) && sp.Split? && sp.upstreams == []
  }

  function Exclusions(domains: seq<string>): seq<Rule> {
    if domains == [] then [] else Exclusions(domains[..|domains| - 1]) + [Exclude(domains[|domains| - 1])]
  }

  function Reservations(domains: seq<string>, up: Upstream): seq<Rule> {
    if domains == [] then []
    else Reservations(domains[..|domains| - 1], up) + [Reserve(domains[|domains| - 1], up)]
  }

  /** The rules of one upstream of a line. */
  function UpstreamRules(domains: seq<string>, up: Upstream): seq<Rule> {
    if domains == [] then [Default(up)] else Reservations(domains, up)
  }

  /** The rules of a line's upstreams in order, up to the first address that makes no upstream. */
  function SpecifyRules(env: Env, domains: seq<string>, ups: seq<string>): seq<Rule> {
    if ups == [] then []
    else match env.make(ups[0])
      case None => []
      case Some(up) => UpstreamRules(domains, up) + SpecifyRules(env, domains, ups[1..])
  }

  function LineRules(env: Env, line: string): seq<Rule> {
    if Blank(line) then []
    else
      var sp := SplitConfigLine(env, line);
      if sp.BadLine? then []
      else if IsExclusion(sp) then Exclusions(sp.domains)
      else SpecifyRules(env, sp.domains, sp.upstreams)
  }

  function LineRulesOf(env: Env): string -> seq<Rule> {
    line => LineRules(env, line)
  }

  function Flatten(f: string -> seq<Rule>, lines: seq<string>): seq<Rule> {
    if lines == [] then [] else Flatten(f, lines[..|lines| - 1]) + f(lines[|lines| - 1])
  }

  /** The rules of all lines, in order. */
  function AllRules(env: Env, lines: seq<string>): seq<Rule> {
    Flatten(LineRulesOf(env), lines)
  }

  predicate LineFails(env: Env, line: string) {
    !Blank(line) && var sp := SplitConfigLine(env, line);
    sp.BadLine? || (!IsExclusion(sp) && exists k :: 0 <= k < |sp.upstreams| && env.make(sp.upstreams[k]).None?)
  }

  /** The positions of the lines reported as errors. */
  function FailedLines(env: Env, lines: seq<string>): seq<nat> {
    if lines == [] then []
    else
      var last := |lines| - 1;
      FailedLines(env, lines[..last]) + if LineFails(env, lines[last]) then [last] else []
  }

  /** Errors name exactly the failing lines, in order. */
  lemma {:induction false} FailedLinesExact(env: Env, lines: seq<string>)
    ensures var errs := FailedLines(env, lines);
            && (forall i :: i in errs <==> 0 <= i < |lines| && LineFails(env, lines[i]))
            && (forall i, j :: 0 <= i < j < |errs| ==> errs[i] < errs[j])
  {
    if lines == [] {
    } else {
      var last := |lines| - 1;
      FailedLinesExact(env, lines[..last]);
      var errs := FailedLines(env, lines[..last]);
      assert forall i :: 0 <= i < |errs| ==> errs[i] in errs;
    }
  }

  // What a list of rules says about one domain, read off the rules alone.

  /** The in-order fold of the plain rules of `h`; `None` when there is none. An exclusion resets. */
  function PlainOf(rules: seq<Rule>, h: string): Option<seq<Upstream>> {
    if rules == [] then None
    else
      var before, r := PlainOf(rules[..|rules| - 1], h), rules[|rules| - 1];
      if r.Reserve? && r.host == h && !IsWild(h) then Some(Listed(before) + [r.up])
      else if r.Exclude? && r.host == h && !IsWild(h) then Some([])
      else before
  }

  /** The same fold over the rules written `*.h`. */
  function WildOf(rules: seq<Rule>, h: string): Option<seq<Upstream>> {
    if rules == [] then None
    else
      var before, r := WildOf(rules[..|rules| - 1], h), rules[|rules| - 1];
      if r.Reserve? && r.host == "*." + h then Some(Listed(before) + [r.up])
      else if r.Exclude? && r.host == "*." + h then Some([])
      else before
  }

  function Listed(o: Option<seq<Upstream>>): seq<Upstream> {
    if o.Some? then o.value else []
  }

  function DefaultsOf(rules: seq<Rule>): seq<Upstream> {
    if rules == [] then []
    else
      var before, r := DefaultsOf(rules[..|rules| - 1]), rules[|rules| - 1];
      if r.Default? then before + [r.up] else before
  }

  // The tables the parser keeps.

  type Table = map<string, seq<Upstream>>

  datatype Tables = Tables(
    reserved: Table,
    specified: Table,
    subdomainsOnly: Table,
    exclusions: set<string>,
    defaults: seq<Upstream>)

  const EMPTY := Tables(map[], map[], map[], {}, [])

  function Get(t: Table, h: string): Option<seq<Upstream>> {
    if h in t then Some(t[h]) else None
  }

  /** Go's `m[h] = append(m[h], up)`. */
  function Appended(t: Table, h: string, up: Upstream): Table {
    t[h := Listed(Get(t, h)) + [up]]
  }

  function ApplyRule(t: Tables, r: Rule): Tables {
    match r
    case Default(up) => t.(defaults := t.defaults + [up])
    case Reserve(host, up) =>
      if IsWild(host) then
        t.(exclusions := t.exclusions + {host[2..]},
           subdomainsOnly := Appended(t.subdomainsOnly, host[2..], up),
           reserved := Appended(t.reserved, host[2..], up))
      else
        t.(specified := Appended(t.specified, host, up), reserved := Appended(t.reserved, host, up))
    case Exclude(host) =>
      if IsWild(host) then
        t.(exclusions := t.exclusions + {host[2..]}, subdomainsOnly := t.subdomainsOnly[host[2..] := []])
      else
        t.(reserved := t.reserved[host := []], specified := t.specified[host := []])
  }

  function ApplyRules(t: Tables, rules: seq<Rule>): Tables {
    if rules == [] then t else ApplyRule(ApplyRules(t, rules[..|rules| - 1]), rules[|rules| - 1])
  }

  lemma {:induction false} ApplyRulesConcat(t: Tables, a: seq<Rule>, b: seq<Rule>)
    ensures ApplyRules(t, a + b) == ApplyRules(ApplyRules(t, a), b)
  {
    if b == [] {
      assert a + b == a;
    } else {
      assert (a + b)[..|a + b| - 1] == a + b[..|b| - 1];
      ApplyRulesConcat(t, a, b[..|b| - 1]);
    }
  }

  lemma ExclusionsSnoc(t: Tables, domains: seq<string>, i: nat)
    requires i < |domains|
    ensures ApplyRules(t, Exclusions(domains[..i + 1]))
         == ApplyRule(ApplyRules(t, Exclusions(domains[..i])), Exclude(domains[i]))
  {
    assert domains[..i + 1][..i] == domains[..i];
    var rules := Exclusions(domains[..i + 1]);
    assert rules[..|rules| - 1] == Exclusions(domains[..i]);
  }

  lemma ReservationsSnoc(t: Tables, domains: seq<string>, up: Upstream, i: nat)
    requires i < |domains|
    ensures ApplyRules(t, Reservations(domains[..i + 1], up))
         == ApplyRule(ApplyRules(t, Reservations(domains[..i], up)), Reserve(domains[i], up))
  {
    assert domains[..i + 1][..i] == domains[..i];
    var rules := Reservations(domains[..i + 1], up);
    assert rules[..|rules| - 1] == Reservations(domains[..i], up);
  }

  lemma AllRulesSnoc(env: Env, t: Tables, lines: seq<string>, i: nat)
    requires i < |lines|
    ensures ApplyRules(t, AllRules(env, lines[..i + 1]))
         == ApplyRules(ApplyRules(t, AllRules(env, lines[..i])), LineRules(env, lines[i]))
  {
    assert lines[..i + 1][..i] == lines[..i];
    ApplyRulesConcat(t, AllRules(env, lines[..i]), LineRules(env, lines[i]));
  }

  /** The finished configuration: wildcard lists overwrite the reserved ones. */
  datatype UpstreamConfig = UpstreamConfig(
    upstreams: seq<Upstream>,
    reserved: Table,
    specified: Table,
    subdomainExclusions: set<string>)

  function Finish(t: Tables): UpstreamConfig {
    UpstreamConfig(t.defaults, t.reserved + t.subdomainsOnly, t.specified, t.exclusions)
  }

  /** `c` says about every domain what `rules` say. */
  ghost predicate Means(c: UpstreamConfig, rules: seq<Rule>) {
    && c.upstreams == DefaultsOf(rules)
    && (forall h :: Get(c.specified, h) == PlainOf(rules, h))
    && (forall h :: h in c.subdomainExclusions <==> WildOf(rules, h).Some?)
    && (forall h :: Get(c.reserved, h) == if WildOf(rules, h).Some? then WildOf(rules, h) else PlainOf(rules, h))
  }

  /** While the rules are folded, the mixed table already agrees with the plain rules of any
      domain that has no wildcard rule yet. */
  lemma {:induction false} TablesFollowRules(rules: seq<Rule>, h: string)
    ensures var t := ApplyRules(EMPTY, rules);
            && t.defaults == DefaultsOf(rules)
            && Get(t.specified, h) == PlainOf(rules, h)
            && Get(t.subdomainsOnly, h) == WildOf(rules, h)
            && (h in t.exclusions <==> WildOf(rules, h).Some?)
            && (WildOf(rules, h).None? ==> Get(t.reserved, h) == PlainOf(rules, h))
  {
    if rules == [] {
    } else {
      TablesFollowRules(rules[..|rules| - 1], h);
      var r := rules[|rules| - 1];
      if !r.Default? {
        assert IsWild(r.host) ==> r.host == "*." + r.host[2..];
        assert ("*." + h)[2..] == h;
      }
    }
  }

  /** Folding any rules and overwriting at the end leaves, for every domain, the fold of its
      wildcard rules if it has any and of its plain rules otherwise. */
  lemma ConfigMeansRules(rules: seq<Rule>)
    ensures Means(Finish(ApplyRules(EMPTY, rules)), rules)
  {
    forall h { TablesFollowRules(rules, h); }
    TablesFollowRules(rules, "");
  }

  /** Two configurations that mean the same rules answer every lookup alike. */
  lemma MeaningDetermines(c: UpstreamConfig, d: UpstreamConfig, rules: seq<Rule>)
    requires Means(c, rules) && Means(d, rules)
    ensures c == d
  {
    forall h ensures Get(c.reserved, h) == Get(d.reserved, h) && Get(c.specified, h) == Get(d.specified, h) {}
    TablesEqual(c.reserved, d.reserved);
    TablesEqual(c.specified, d.specified);
    assert c.subdomainExclusions == d.subdomainExclusions;
  }

  lemma TablesEqual(a: Table, b: Table)
    requires forall h :: Get(a, h) == Get(b, h)
    ensures a == b
  {
    forall h ensures h in a <==> h in b { assert Get(a, h) == Get(b, h); }
    forall h | h in a ensures a[h] == b[h] { assert Get(a, h) == Get(b, h); }
  }

  /** Every wildcard apex ends in a separator, so the lookup can cut a parent off it. */
  lemma ApexHasDot(env: Env, lines: seq<string>, h: string)
    requires !env.validDomain("*")
    requires WildOf(AllRules(env, lines), h).Some?
    ensures '.' in h
  {
    var i := WildRule(AllRules(env, lines), h);
    RuleHosts(env, lines, i);
  }

  /** `r` names the host `host` (wildcard mark included). */
  predicate Concerns(r: Rule, host: string) {
    !r.Default? && r.host == host
  }

  lemma {:induction false} WildRule(rules: seq<Rule>, h: string) returns (i: nat)
    requires WildOf(rules, h).Some?
    ensures i < |rules| && Concerns(rules[i], "*." + h)
    ensures IsWild(rules[i].host) && rules[i].host[2..] == h
  {
    if Concerns(rules[|rules| - 1], "*." + h) {
      i := |rules| - 1;
      assert ("*." + h)[2..] == h;
    } else {
      i := WildRule(rules[..|rules| - 1], h);
    }
  }

  /** The hosts a line can name. */
  ghost predicate HostOfLine(env: Env, line: string, host: string) {
    var sp := SplitConfigLine(env, line);
    sp.Split? && host in sp.domains
  }

  lemma {:induction false} ReservationHosts(domains: seq<string>, up: Upstream, i: nat)
    requires i < |Reservations(domains, up)|
    ensures Reservations(domains, up)[i].Reserve? && Reservations(domains, up)[i].host in domains
  {
    if i < |Reservations(domains[..|domains| - 1], up)| { ReservationHosts(domains[..|domains| - 1], up, i); }
  }

  lemma {:induction false} ExclusionHosts(domains: seq<string>, i: nat)
    requires i < |Exclusions(domains)|
    ensures Exclusions(domains)[i].Exclude? && Exclusions(domains)[i].host in domains
  {
    if i < |Exclusions(domains[..|domains| - 1])| { ExclusionHosts(domains[..|domains| - 1], i); }
  }

  lemma {:induction false} SpecifyHosts(env: Env, domains: seq<string>, ups: seq<string>, i: nat)
    requires i < |SpecifyRules(env, domains, ups)|
    ensures var r := SpecifyRules(env, domains, ups)[i];
            if domains == [] then r.Default? else r.Reserve? && r.host in domains
  {
    var up := env.make(ups[0]).value;
    var first := UpstreamRules(domains, up);
    if i < |first| {
      if domains != [] { ReservationHosts(domains, up, i); }
    } else {
      SpecifyHosts(env, domains, ups[1..], i - |first|);
    }
  }

  /** A line's rules name only its own domains, and a line with domains adds no default upstream. */
  lemma LineHosts(env: Env, line: string, i: nat)
    requires i < |LineRules(env, line)|
    ensures var r, sp := LineRules(env, line)[i], SplitConfigLine(env, line);
            sp.Split? && if sp.domains == [] then r.Default? else !r.Default? && r.host in sp.domains
  {
    var sp := SplitConfigLine(env, line);
    if IsExclusion(sp) { ExclusionHosts(sp.domains, i); } else { SpecifyHosts(env, sp.domains, sp.upstreams, i); }
  }

  lemma {:induction false} RuleHosts(env: Env, lines: seq<string>, i: nat)
    requires !env.validDomain("*")
    requires i < |AllRules(env, lines)|
    ensures var r := AllRules(env, lines)[i]; !r.Default? && IsWild(r.host) ==> '.' in r.host[2..]
  {
    var front, line := lines[..|lines| - 1], lines[|lines| - 1];
    if i < |AllRules(env, front)| {
      RuleHosts(env, front, i);
    } else {
      LineHosts(env, line, i - |AllRules(env, front)|);
      var r := AllRules(env, lines)[i];
      if !r.Default? && IsWild(r.host) { LineWildDot(env, line, r.host); }
    }
  }

  lemma KeyWildDot(env: Env, c: string)
    requires !env.validDomain("*")
    requires DomainAccepted(env, c) && IsWild(DomainKey(c))
    ensures '.' in DomainKey(c)[2..]
  {
    var host := DomainKey(c);
    assert host == Lower(c + ".") by { assert UNQUALIFIED_NAMES[0] == 'u'; }
    assert host[|c|] == '.';
    assert c != "*" && c[0] == '*';
    assert c != [c[0]];
    assert host[2..][|c| - 2] == '.';
  }

  lemma LineWildDot(env: Env, line: string, host: string)
    requires !env.validDomain("*")
    requires HostOfLine(env, line, host) && IsWild(host)
    ensures '.' in host[2..]
  {
    var rest := line[2..];
    var confHosts := Strings.Split(rest[..IndexOf(rest, "/]")], '/');
    var k :| 0 <= k < |confHosts| && DomainKeys(confHosts)[k] == host;
    assert DomainAccepted(env, confHosts[k]);
    KeyWildDot(env, confHosts[k]);
  }
}
