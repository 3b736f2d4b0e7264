/** Which upstreams serve a name: the label-stripping lookup and the reading it must agree with. */
module Routing {
  import opened Bytes
  import opened ConfigParser
  import opened Strings
  import opened UpstreamRules

  /** `d` is `name` cut after one of its separators, and not empty. */
  ghost predicate ProperSuffix(d: string, name: string) {
    d != "" && exists i :: 0 <= i < |name| && name[i] == '.' && d == name[i + 1..]
  }

  /** A name of one label, with or without the final separator. */
  predicate SingleLabel(name: string) {
    name != "" && name[0] != '.' && AfterDot(name) == ""
  }

  /** The list of a configured domain; an empty list stands for the default upstreams. */
  function Effective(c: UpstreamConfig, d: string): seq<Upstream>
    requires d in c.reserved
  {
    if c.reserved[d] == [] then c.upstreams else c.reserved[d]
  }

  /** `d` is the most specific configured domain strictly above `name`. */
  ghost predicate MostSpecific(c: UpstreamConfig, name: string, d: string) {
    && ProperSuffix(d, name) && d in c.reserved
    && forall e :: ProperSuffix(e, name) && e in c.reserved ==> |e| <= |d|
  }

  /** A wildcard apex: its plain list, else its immediate parent's, else the defaults. */
  function ApexRoute(c: UpstreamConfig, name: string): seq<Upstream> {
    if Listed(Get(c.specified, name)) != [] then c.specified[name]
    else if Listed(Get(c.reserved, AfterDot(name))) != [] then c.reserved[AfterDot(name)]
    else c.upstreams
  }

  /** The list for a name about which nothing is said itself. */
  ghost function RouteAbove(c: UpstreamConfig, name: string): seq<Upstream> {
    if SingleLabel(name) then
      if UNQUALIFIED_NAMES in c.reserved then Effective(c, UNQUALIFIED_NAMES) else c.upstreams
    else if d :| MostSpecific(c, name, d) then Effective(c, d)
    else c.upstreams
  }

  /** The declarative reading: most specific rule wins. */
  ghost function Route(c: UpstreamConfig, q: string): seq<Upstream> {
    var name := Lower(q);
    if name in c.subdomainExclusions then ApexRoute(c, name)
    else if name in c.reserved then Effective(c, name)
    else RouteAbove(c, name)
  }

  /** The domains the answer for `q` may depend on. */
  ghost predicate Relevant(q: string, d: string) {
    var name := Lower(q);
    d == name || d == AfterDot(name) || ProperSuffix(d, name) || (SingleLabel(name) && d == UNQUALIFIED_NAMES)
  }

  lemma MostSpecificUnique(c: UpstreamConfig, name: string, d: string, e: string)
    requires MostSpecific(c, name, d) && MostSpecific(c, name, e)
    ensures d == e
  {
    var i :| 0 <= i < |name| && name[i] == '.' && d == name[i + 1..];
    var j :| 0 <= j < |name| && name[j] == '.' && e == name[j + 1..];
    assert |d| == |e|;
  }

  /** Whenever some configured domain lies above a name, there is a most specific one. */
  lemma {:induction false} MostSpecificExists(c: UpstreamConfig, name: string, d: string)
    requires ProperSuffix(d, name) && d in c.reserved
    ensures exists e :: MostSpecific(c, name, e)
    decreases |name| - |d|
  {
    if !MostSpecific(c, name, d) {
      var e :| ProperSuffix(e, name) && e in c.reserved && |e| > |d|;
      MostSpecificExists(c, name, e);
    }
  }

  lemma {:induction false} AfterDotIsNext(s: string)
    ensures forall i :: 0 <= i < |s| && s[i] == '.' ==> |s[i + 1..]| <= |AfterDot(s)|
    ensures AfterDot(s) == "" || ProperSuffix(AfterDot(s), s)
  {
    IndexOfMeans(s, ".");
    var k := IndexOf(s, ".");
    forall i | 0 <= i < |s| && s[i] == '.'
      ensures |s[i + 1..]| <= |AfterDot(s)|
    {
      assert "." <= s[i..];
    }
    if k < |s| { assert s[k..][0] == '.'; }
  }

  /** A shorter suffix of `name` is a suffix of any longer tail of it. */
  lemma SuffixOfTail(name: string, tail: string, e: string)
    requires ProperSuffix(tail, name) && ProperSuffix(e, name) && |e| < |tail|
    ensures ProperSuffix(e, tail)
  {
    var i :| 0 <= i < |name| && name[i] == '.' && tail == name[i + 1..];
    var j :| 0 <= j < |name| && name[j] == '.' && e == name[j + 1..];
    assert tail[j - i - 1] == '.' && e == tail[j - i..];
  }

  lemma TailOfTail(name: string, tail: string, e: string)
    requires ProperSuffix(tail, name) && ProperSuffix(e, tail)
    ensures ProperSuffix(e, name)
  {
    var i :| 0 <= i < |name| && name[i] == '.' && tail == name[i + 1..];
    var j :| 0 <= j < |tail| && tail[j] == '.' && e == tail[j + 1..];
    assert name[i + 1 + j] == '.' && e == name[i + 1 + j + 1..];
  }

  /** Cutting the first label off a tail of `name` steps to the next tail of `name`. */
  lemma NextTail(name: string, tail: string)
    requires ProperSuffix(tail, name)
    ensures AfterDot(tail) == "" || ProperSuffix(AfterDot(tail), name)
    ensures forall e :: ProperSuffix(e, name) && |e| < |tail| ==> |e| <= |AfterDot(tail)|
  {
    AfterDotIsNext(tail);
    if AfterDot(tail) != "" { TailOfTail(name, tail, AfterDot(tail)); }
    forall e | ProperSuffix(e, name) && |e| < |tail| ensures |e| <= |AfterDot(tail)| {
      SuffixOfTail(name, tail, e);
    }
  }

  method LookupUpstreams(c: UpstreamConfig, name: string) returns (ups: seq<Upstream>, ok: bool)
    ensures ok <==> name in c.reserved
    ensures ok ==> ups == Effective(c, name)
  {
    if name !in c.reserved { return [], false; }
    ups := c.reserved[name];
    if |ups| == 0 { ups := c.upstreams; }
    ok := true;
  }

  method LookupSubdomainExclusion(c: UpstreamConfig, host: string) returns (u: seq<Upstream>)
    requires '.' in host
    ensures u == ApexRoute(c, host)
  {
    if host in c.specified && |c.specified[host]| > 0 { return c.specified[host]; }
    var h := AfterDot(host);
    if h in c.reserved && |c.reserved[h]| > 0 { return c.reserved[h]; }
    u := c.upstreams;
  }

  /** The fast lookup: terminates on every name and gives the most specific rule's list.
      The exclusions must end in a separator, as every parsed configuration's do. */
  method GetUpstreamsForDomain(c: UpstreamConfig, q: string) returns (ups: seq<Upstream>)
    requires forall h :: h in c.subdomainExclusions ==> '.' in h
    requires c.reserved == map[] ==> c.subdomainExclusions == {}
    ensures ups == Route(c, q)
  {
    if |c.reserved| == 0 { return c.upstreams; }
    var name := Lower(q);
    if name in c.subdomainExclusions {
      ups := LookupSubdomainExclusion(c, name);
      return;
    }
    var ok;
    ups, ok := LookupUpstreams(c, name);
    if ok { return; }
    AfterDotIsNext(name);
    var fqdn := AfterDot(name);
    var firstLabel := name[..IndexOf(name, ".")];
    FirstLabel(name);
    if firstLabel != "" && fqdn == "" { fqdn := UNQUALIFIED_NAMES; }
    ups := StripLabels(c, name, fqdn);
  }

  /** No configured domain above `name` is longer than `tail`. */
  ghost predicate Bounds(c: UpstreamConfig, name: string, tail: string) {
    forall e :: ProperSuffix(e, name) && e in c.reserved ==> |e| <= |tail|
  }

  /** The loop: the first tail that is configured is the most specific domain. */
  method StripLabels(c: UpstreamConfig, name: string, start: string) returns (ups: seq<Upstream>)
    requires SingleLabel(name) ==> start == UNQUALIFIED_NAMES
    requires !SingleLabel(name) ==> (start == "" || ProperSuffix(start, name)) && Bounds(c, name, start)
    ensures ups == RouteAbove(c, name)
  {
    var fqdn := start;
    while fqdn != ""
      invariant SingleLabel(name) ==> fqdn == UNQUALIFIED_NAMES || (fqdn == "" && UNQUALIFIED_NAMES !in c.reserved)
      invariant !SingleLabel(name) ==> (fqdn == "" || ProperSuffix(fqdn, name)) && Bounds(c, name, fqdn)
      decreases |fqdn|
    {
      var ok;
      ups, ok := LookupUpstreams(c, fqdn);
      if ok {
        if !SingleLabel(name) { FirstFound(c, name, fqdn); }
        return;
      }
      if SingleLabel(name) { NoDot(fqdn); } else { StepDown(c, name, fqdn); }
      fqdn := AfterDot(fqdn);
    }
    ups := c.upstreams;
  }

  lemma FirstFound(c: UpstreamConfig, name: string, tail: string)
    requires !SingleLabel(name) && ProperSuffix(tail, name) && tail in c.reserved && Bounds(c, name, tail)
    ensures RouteAbove(c, name) == Effective(c, tail)
  {
    assert MostSpecific(c, name, tail);
    forall d | MostSpecific(c, name, d) ensures d == tail { MostSpecificUnique(c, name, d, tail); }
  }

  /** When the tail in hand is not configured, the next tail still bounds every configured one. */
  lemma StepDown(c: UpstreamConfig, name: string, tail: string)
    requires ProperSuffix(tail, name) && tail !in c.reserved && Bounds(c, name, tail)
    ensures AfterDot(tail) == "" || ProperSuffix(AfterDot(tail), name)
    ensures Bounds(c, name, AfterDot(tail))
  {
    NextTail(name, tail);
    forall e | ProperSuffix(e, name) && e in c.reserved
      ensures |e| <= |AfterDot(tail)|
    {
      if |e| == |tail| { SameLengthSuffix(name, e, tail); }
    }
  }

  lemma SameLengthSuffix(name: string, d: string, e: string)
    requires ProperSuffix(d, name) && ProperSuffix(e, name) && |d| == |e|
    ensures d == e
  {
  }

  lemma FirstLabel(name: string)
    ensures name[..IndexOf(name, ".")] != "" <==> name != "" && name[0] != '.'
  {
  }

  lemma {:induction false} NoDot(s: string)
    requires '.' !in s
    ensures IndexOf(s, ".") == |s| && AfterDot(s) == ""
  {
    if s == "" {
    } else {
      assert s[0] in s;
      NoDot(s[1..]);
    }
  }

  /** DS queries look up the name without its first label. */
  method GetUpstreamsForDS(c: UpstreamConfig, q: string) returns (ups: seq<Upstream>)
    requires forall h :: h in c.subdomainExclusions ==> '.' in h
    requires c.reserved == map[] ==> c.subdomainExclusions == {}
    ensures ups == if AfterDot(q) == "" then c.upstreams else Route(c, AfterDot(q))
  {
    var fqdn := AfterDot(q);
    if fqdn == "" { return c.upstreams; }
    ups := GetUpstreamsForDomain(c, fqdn);
  }

  // Locality, non-interference and letter case.

  /** The two configurations agree on every domain the answer for `q` may depend on. */
  ghost predicate AgreeFor(c: UpstreamConfig, d: UpstreamConfig, q: string) {
    && c.upstreams == d.upstreams
    && forall h :: Relevant(q, h) ==>
      && Get(c.reserved, h) == Get(d.reserved, h)
      && Get(c.specified, h) == Get(d.specified, h)
      && (h in c.subdomainExclusions <==> h in d.subdomainExclusions)
  }

  lemma MostSpecificAgrees(c: UpstreamConfig, d: UpstreamConfig, q: string, h: string)
    requires AgreeFor(c, d, q) && MostSpecific(c, Lower(q), h)
    ensures MostSpecific(d, Lower(q), h) && Effective(c, h) == Effective(d, h)
  {
    assert Get(c.reserved, h) == Get(d.reserved, h);
    forall e | ProperSuffix(e, Lower(q)) && e in d.reserved
      ensures |e| <= |h|
    {
      assert Get(c.reserved, e) == Get(d.reserved, e);
    }
  }

  /** The answer for a name depends only on the default list and on what is said about the
      name, the domains above it and, for a single label, the unqualified names. */
  lemma RouteIsLocal(c: UpstreamConfig, d: UpstreamConfig, q: string)
    requires AgreeFor(c, d, q)
    ensures Route(c, q) == Route(d, q)
  {
    var name := Lower(q);
    assert Get(c.reserved, name) == Get(d.reserved, name);
    assert Get(c.reserved, AfterDot(name)) == Get(d.reserved, AfterDot(name));
    if SingleLabel(name) {
      assert Get(c.reserved, UNQUALIFIED_NAMES) == Get(d.reserved, UNQUALIFIED_NAMES);
    }
    forall h | MostSpecific(c, name, h) ensures MostSpecific(d, name, h) && Effective(c, h) == Effective(d, h) {
      MostSpecificAgrees(c, d, q, h);
    }
    forall h | MostSpecific(d, name, h) ensures MostSpecific(c, name, h) {
      MostSpecificAgrees(d, c, q, h);
    }
    forall g, h | MostSpecific(c, name, g) && MostSpecific(c, name, h) ensures g == h {
      MostSpecificUnique(c, name, g, h);
    }
  }

  /** No rule of `mid` is a default or about `host` (wildcard mark included). */
  ghost predicate Silent(mid: seq<Rule>, host: string) {
    forall i :: 0 <= i < |mid| ==> !mid[i].Default? && mid[i].host != host
  }

  lemma {:induction false} SkipSilent(a: seq<Rule>, mid: seq<Rule>, b: seq<Rule>, h: string)
    ensures Silent(mid, h) ==> PlainOf(a + mid + b, h) == PlainOf(a + b, h)
    ensures Silent(mid, "*." + h) ==> WildOf(a + mid + b, h) == WildOf(a + b, h)
    ensures Silent(mid, h) ==> DefaultsOf(a + mid + b) == DefaultsOf(a + b)
    decreases |mid| + |b|
  {
    if b != [] {
      var b' := b[..|b| - 1];
      SkipSilent(a, mid, b', h);
      assert (a + mid + b)[..|a + mid + b| - 1] == a + mid + b' && (a + b)[..|a + b| - 1] == a + b';
    } else if mid != [] {
      var mid' := mid[..|mid| - 1];
      SkipSilent(a, mid', b, h);
      assert (a + mid + b)[..|a + mid + b| - 1] == a + mid' + b;
    } else {
      assert a + mid + b == a + b;
    }
  }

  lemma {:induction false} FlattenConcat(f: string -> seq<Rule>, a: seq<string>, b: seq<string>)
    ensures Flatten(f, a + b) == Flatten(f, a) + Flatten(f, b)
  {
    if b == [] {
      assert a + b == a;
    } else {
      assert (a + b)[..|a + b| - 1] == a + b[..|b| - 1];
      FlattenConcat(f, a, b[..|b| - 1]);
    }
  }

  lemma InsertLine(env: Env, before: seq<string>, line: string, after: seq<string>)
    ensures AllRules(env, before + after) == AllRules(env, before) + AllRules(env, after)
    ensures AllRules(env, before + [line] + after)
         == AllRules(env, before) + LineRules(env, line) + AllRules(env, after)
  {
    var f := LineRulesOf(env);
    FlattenConcat(f, before, after);
    FlattenConcat(f, before + [line], after);
    assert (before + [line])[..|before|] == before;
  }

  /** A line for domains none of which bears on `q`. */
  ghost predicate LineElsewhere(env: Env, line: string, q: string) {
    var sp := SplitConfigLine(env, line);
    sp.Split? ==>
      && sp.domains != []
      && forall d :: d in sp.domains ==> !Relevant(q, d) && !Relevant(q, TrimPrefix(d, "*."))
  }

  lemma LineElsewhereSilent(env: Env, line: string, q: string, h: string)
    requires LineElsewhere(env, line, q) && Relevant(q, h)
    ensures Silent(LineRules(env, line), h) && Silent(LineRules(env, line), "*." + h)
  {
    forall i | 0 <= i < |LineRules(env, line)|
      ensures var r := LineRules(env, line)[i]; !r.Default? && r.host != h && r.host != "*." + h
    {
      LineHosts(env, line, i);
      assert TrimPrefix("*." + h, "*.") == h;
    }
  }

  /** Adding a domain line at any position changes no answer for a name that has none of the
      line's domains as a label suffix. */
  lemma NonInterference(env: Env, before: seq<string>, line: string, after: seq<string>, c: UpstreamConfig,
                        d: UpstreamConfig, q: string)
    requires LineElsewhere(env, line, q)
    requires Means(c, AllRules(env, before + after))
    requires Means(d, AllRules(env, before + [line] + after))
    ensures Route(c, q) == Route(d, q)
  {
    var a, mid, b := AllRules(env, before), LineRules(env, line), AllRules(env, after);
    InsertLine(env, before, line, after);
    forall h | Relevant(q, h)
      ensures PlainOf(a + mid + b, h) == PlainOf(a + b, h) && WildOf(a + mid + b, h) == WildOf(a + b, h)
      ensures DefaultsOf(a + mid + b) == DefaultsOf(a + b)
    {
      LineElsewhereSilent(env, line, q, h);
      SkipSilent(a, mid, b, h);
    }
    assert Relevant(q, Lower(q));
    RouteIsLocal(c, d, q);
  }

  /** The validator ignores letter case, as domain name validation does. */
  ghost predicate FoldingValidator(env: Env) {
    forall s, t :: SameFold(s, t) ==> env.validDomain(s) == env.validDomain(t)
  }

  /** `m` is `l` with the letter case of its domain part changed. */
  ghost predicate CaseVariant(l: string, m: string) {
    l == m || exists D, E, U: string ::
      && SameFold(D, E) && IndexOf(D + "/]" + U, "/]") == |D|
      && l == "[/" + D + "/]" + U && m == "[/" + E + "/]" + U
  }

  lemma FoldConcat(s: string, t: string, u: string)
    requires SameFold(s, t)
    ensures |s| == |t| && SameFold(s + u, t + u)
  {
    assert |Lower(s)| == |Lower(t)|;
    forall i | 0 <= i < |s + u| ensures Lower(s + u)[i] == Lower(t + u)[i] {
      if i < |s| { assert Lower(s)[i] == Lower(t)[i]; }
    }
    assert Lower(s + u) == Lower(t + u);
  }

  lemma HostFold(env: Env, s: string, t: string)
    requires FoldingValidator(env) && SameFold(s, t)
    ensures DomainAccepted(env, s) == DomainAccepted(env, t) && DomainKey(s) == DomainKey(t)
  {
    FoldConcat(s, t, ".");
    FoldPrefixes(s, t, "*.");
    FoldPrefixes(t, s, "*.");
    assert s[0..] == s && t[0..] == t;
    if "*." <= s {
      FoldSlice(s, t, 2, |s|);
      assert s[2..|s|] == s[2..] && t[2..|s|] == t[2..];
    }
  }

  lemma SplitPartsFold(env: Env, D: string, E: string, U: string)
    requires FoldingValidator(env) && SameFold(D, E)
    ensures SplitParts(env, D, U) == SplitParts(env, E, U)
  {
    SplitFold(D, E, '/');
    var a, b := Strings.Split(D, '/'), Strings.Split(E, '/');
    forall k | 0 <= k < |a|
      ensures DomainAccepted(env, a[k]) == DomainAccepted(env, b[k]) && DomainKey(a[k]) == DomainKey(b[k])
    {
      HostFold(env, a[k], b[k]);
    }
    assert DomainKeys(a) == DomainKeys(b);
  }

  lemma SplitAtSeparator(env: Env, D: string, U: string)
    requires IndexOf(D + "/]" + U, "/]") == |D|
    ensures SplitConfigLine(env, "[/" + D + "/]" + U) == if U == "" then BadLine else SplitParts(env, D, U)
  {
    var rest := D + "/]" + U;
    assert ("[/" + D + "/]" + U)[2..] == rest;
    assert rest[..|D|] == D && rest[|D| + 2..] == U;
  }

  lemma {:induction false} FieldsEmpty(s: string, current: string)
    ensures FieldsFrom(s, current) == [] <==> current == "" && AllSpace(s)
  {
    if s == "" {
    } else {
      FieldsEmpty(s[1..], if IsSpace(s[0]) then "" else current + [s[0]]);
      assert forall i :: 0 < i < |s| ==> s[i] == s[1..][i - 1];
    }
  }

  /** `line` names accepted domains and has a non-empty upstream part of nothing but white space. */
  ghost predicate OnlySpaceAfterDomains(env: Env, line: string, D: string, U: string) {
    && line == "[/" + D + "/]" + U && IndexOf(D + "/]" + U, "/]") == |D|
    && U != "" && AllSpace(U) && AllAccepted(env, Strings.Split(D, '/'))
  }

  lemma Parted(rest: string, sep: string) returns (D: string, U: string)
    requires sep != "" && IndexOf(rest, sep) + |sep| < |rest|
    ensures rest == D + sep + U && IndexOf(D + sep + U, sep) == |D| && U != ""
  {
    var i := IndexOf(rest, sep);
    IndexOfMeans(rest, sep);
    PartedAt(rest, sep, i);
    D, U := rest[..i], rest[i + |sep|..];
  }

  lemma SplitParted(line: string) returns (D: string, U: string)
    requires "[/" <= line && IndexOf(line[2..], "/]") + 2 < |line[2..]|
    ensures line == "[/" + D + "/]" + U && IndexOf(D + "/]" + U, "/]") == |D| && U != ""
  {
    D, U := Parted(line[2..], "/]");
    assert "[/" + D + "/]" + U == "[/" + (D + "/]" + U);
  }

  lemma PartedAt(s: string, sep: string, i: nat)
    requires i <= |s| && sep <= s[i..]
    ensures s == s[..i] + sep + s[i + |sep|..]
  {
    assert s == s[..i] + s[i..];
    assert s[i..] == sep + s[i..][|sep|..];
  }

  /** The lines on which the parser indexes past the end of its field list. */
  lemma LacksUpstreamExactly(env: Env, line: string)
    ensures LacksUpstream(env, line) <==> exists D, U :: OnlySpaceAfterDomains(env, line, D, U)
  {
    forall D, U | OnlySpaceAfterDomains(env, line, D, U) ensures LacksUpstream(env, line) {
      SplitAtSeparator(env, D, U);
      FieldsEmpty(U, "");
    }
    if LacksUpstream(env, line) {
      var D, U := SplitParted(line);
      SplitAtSeparator(env, D, U);
      FieldsEmpty(U, "");
      assert OnlySpaceAfterDomains(env, line, D, U);
    }
  }

  /** Such a line: a domain, and a space where the upstreams should be. */
  lemma LacksUpstreamExample(env: Env)
    requires env.validDomain("a")
    ensures LacksUpstream(env, "[/a/] ")
  {
    var D, U := "a", " ";
    var rest := D + "/]" + U;
    assert rest[0] == 'a' && rest[1..] == "/] ";
    assert "/]" <= rest[1..];
    assert !("/]" <= rest) by { assert "/]"[0] == '/'; }
    assert IndexOf(rest, "/]") == 1;
    assert Strings.Split(D, '/') == ["a"];
    assert OnlySpaceAfterDomains(env, "[/a/] ", D, U);
    LacksUpstreamExactly(env, "[/a/] ");
  }

  lemma SplitLineFold(env: Env, D: string, E: string, U: string)
    requires FoldingValidator(env) && SameFold(D, E) && IndexOf(D + "/]" + U, "/]") == |D|
    ensures SplitConfigLine(env, "[/" + D + "/]" + U) == SplitConfigLine(env, "[/" + E + "/]" + U)
  {
    assert D + "/]" + U == D + ("/]" + U) && E + "/]" + U == E + ("/]" + U);
    FoldConcat(D, E, "/]" + U);
    IndexOfFold(D + "/]" + U, E + "/]" + U, "/]");
    SplitAtSeparator(env, D, U);
    SplitAtSeparator(env, E, U);
    SplitPartsFold(env, D, E, U);
  }

  lemma LineFold(env: Env, l: string, m: string)
    requires FoldingValidator(env) && CaseVariant(l, m)
    ensures LineRules(env, l) == LineRules(env, m)
  {
    if l != m {
      var D, E, U: string :|
        && SameFold(D, E) && IndexOf(D + "/]" + U, "/]") == |D|
        && l == "[/" + D + "/]" + U && m == "[/" + E + "/]" + U;
      SplitLineFold(env, D, E, U);
      assert l[0] == m[0] == '[';
    }
  }

  lemma {:induction false} RulesFold(env: Env, ls: seq<string>, ms: seq<string>)
    requires FoldingValidator(env)
    requires |ls| == |ms| && forall i :: 0 <= i < |ls| ==> CaseVariant(ls[i], ms[i])
    ensures AllRules(env, ls) == AllRules(env, ms)
  {
    if ls == [] {
    } else {
      var n := |ls| - 1;
      RulesFold(env, ls[..n], ms[..n]);
      LineFold(env, ls[n], ms[n]);
    }
  }

  /** Neither the letter case of the rules' domains nor that of the query matters. */
  lemma CaseDoesNotMatter(env: Env, ls: seq<string>, ms: seq<string>, c: UpstreamConfig, d: UpstreamConfig,
                          q: string, r: string)
    requires FoldingValidator(env)
    requires |ls| == |ms| && forall i :: 0 <= i < |ls| ==> CaseVariant(ls[i], ms[i])
    requires Means(c, AllRules(env, ls)) && Means(d, AllRules(env, ms))
    requires SameFold(q, r)
    ensures Route(c, q) == Route(d, r)
  {
    RulesFold(env, ls, ms);
    MeaningDetermines(c, d, AllRules(env, ls));
  }

  /** Configurations that differ at most in what they say about unqualified names. */
  ghost predicate SameButUnqualified(c: UpstreamConfig, d: UpstreamConfig) {
    && c.upstreams == d.upstreams && c.subdomainExclusions == d.subdomainExclusions
    && forall h :: h != UNQUALIFIED_NAMES ==>
      Get(c.reserved, h) == Get(d.reserved, h) && Get(c.specified, h) == Get(d.specified, h)
  }

  /** The name has one label, or its last label is spelled like the key of the unqualified names and
      no separator follows it. */
  ghost predicate ReadsUnqualified(q: string) {
    SingleLabel(Lower(q)) || ProperSuffix(UNQUALIFIED_NAMES, Lower(q))
  }

  lemma UnqualifiedRelevant(q: string)
    ensures Relevant(q, UNQUALIFIED_NAMES) ==> ReadsUnqualified(q)
  {
    UndottedRelevant(Lower(q), UNQUALIFIED_NAMES);
  }

  lemma UndottedRelevant(name: string, u: string)
    requires u != "" && '.' !in u
    ensures u == name || u == AfterDot(name) || ProperSuffix(u, name) ==> SingleLabel(name) || ProperSuffix(u, name)
  {
    AfterDotIsNext(name);
    if u == name { NoDot(u); }
  }

  lemma UnqualifiedNotRead(c: UpstreamConfig, d: UpstreamConfig, q: string)
    requires SameButUnqualified(c, d) && !ReadsUnqualified(q)
    ensures Route(c, q) == Route(d, q)
  {
    UnqualifiedRelevant(q);
    RouteIsLocal(c, d, q);
  }

  /** A line for unqualified names, with any text after its empty domain part, is about nothing else. */
  lemma UnqualifiedLineSilent(env: Env, U: string, host: string)
    requires host != UNQUALIFIED_NAMES
    ensures Silent(LineRules(env, "[//]" + U), host)
  {
    var line := "[//]" + U;
    assert line == "[/" + "" + "/]" + U && "/]" <= "" + "/]" + U;
    SplitAtSeparator(env, "", U);
    assert Strings.Split("", '/') == [""];
    forall i | 0 <= i < |LineRules(env, line)| ensures Concerns(LineRules(env, line)[i], UNQUALIFIED_NAMES) {
      LineHosts(env, line, i);
    }
  }

  /** Inserting such a line anywhere changes at most what is said about unqualified names. */
  lemma UnqualifiedLineInserted(env: Env, before: seq<string>, U: string, after: seq<string>, c: UpstreamConfig,
                                d: UpstreamConfig)
    requires Means(c, AllRules(env, before + after))
    requires Means(d, AllRules(env, before + ["[//]" + U] + after))
    ensures SameButUnqualified(c, d)
  {
    var a, mid, b := AllRules(env, before), LineRules(env, "[//]" + U), AllRules(env, after);
    InsertLine(env, before, "[//]" + U, after);
    forall h ensures WildOf(a + mid + b, h) == WildOf(a + b, h)
      ensures h != UNQUALIFIED_NAMES ==> PlainOf(a + mid + b, h) == PlainOf(a + b, h)
    {
      assert UNQUALIFIED_NAMES[0] == 'u' && ("*." + h)[0] == '*';
      UnqualifiedLineSilent(env, U, "*." + h);
      if h != UNQUALIFIED_NAMES { UnqualifiedLineSilent(env, U, h); }
      SkipSilent(a, mid, b, h);
    }
    UnqualifiedLineSilent(env, U, "");
    SkipSilent(a, mid, b, "");
    assert c.subdomainExclusions == d.subdomainExclusions;
  }

  /** Inserting the line between the others changes where `q` goes. */
  ghost predicate LineMatters(env: Env, before: seq<string>, line: string, after: seq<string>, q: string) {
    exists c, d :: Means(c, AllRules(env, before + after)) && Means(d, AllRules(env, before + [line] + after)) &&
                   Route(c, q) != Route(d, q)
  }

  lemma SplitUnqualified(env: Env)
    ensures SplitConfigLine(env, "[//]b") == Split(["b"], [UNQUALIFIED_NAMES])
  {
    assert "[//]b" == "[/" + "" + "/]" + "b" && "/]" <= "" + "/]" + "b";
    SplitAtSeparator(env, "", "b");
    assert "b"[1..] == "" && "" + ['b'] == "b" && !IsSpace('b');
    assert Strings.Split("", '/') == [""] && Fields("b") == FieldsFrom("", "b") == ["b"];
    assert DomainKeys([""]) == [UNQUALIFIED_NAMES];
  }

  lemma RulesWithUnqualified(env: Env, a: Upstream, b: Upstream)
    requires env.make("a") == Some(a) && env.make("b") == Some(b)
    ensures AllRules(env, ["a"]) == [Default(a)] && LineRules(env, "[//]b") == [Reserve(UNQUALIFIED_NAMES, b)]
  {
    assert AllRules(env, ["a"]) == LineRules(env, "a");
    assert SpecifyRules(env, [], ["a"]) == [Default(a)];
    SplitUnqualified(env);
    var us := [UNQUALIFIED_NAMES];
    assert SpecifyRules(env, us, ["b"]) == Reservations(us, b) == [Reserve(us[0], b)];
  }

  lemma RoutesWithUnqualified(a: Upstream, b: Upstream, q: string)
    requires ReadsUnqualified(q)
    ensures var u := UNQUALIFIED_NAMES;
            && Route(UpstreamConfig([a], map[], map[], {}), q) == [a]
            && Route(UpstreamConfig([a], map[u := [b]], map[u := [b]], {}), q) == [b]
  {
    var u, name := UNQUALIFIED_NAMES, Lower(q);
    var d := UpstreamConfig([a], map[u := [b]], map[u := [b]], {});
    if !SingleLabel(name) {
      if name == u { NoDot(u); }
      assert MostSpecific(d, name, u);
    }
  }

  /** A default upstream, and a line that gives unqualified names another: every name that reads
      what is said about unqualified names is routed differently with the line than without. */
  lemma UnqualifiedRead(env: Env, q: string)
    requires env.make("a").Some? && env.make("b").Some? && env.make("a") != env.make("b")
    requires ReadsUnqualified(q)
    ensures LineMatters(env, ["a"], "[//]b", [], q)
  {
    var a, b, u := env.make("a").value, env.make("b").value, UNQUALIFIED_NAMES;
    var c, d := UpstreamConfig([a], map[], map[], {}), UpstreamConfig([a], map[u := [b]], map[u := [b]], {});
    RulesWithUnqualified(env, a, b);
    InsertLine(env, ["a"], "[//]b", []);
    assert AllRules(env, ["a"] + []) == [Default(a)];
    assert AllRules(env, ["a"] + ["[//]b"] + []) == [Default(a), Reserve(u, b)];
    TwoRuleConfigs(a, b);
    RoutesWithUnqualified(a, b, q);
  }

  lemma TwoRuleConfigs(a: Upstream, b: Upstream)
    ensures var u := UNQUALIFIED_NAMES;
            && Means(UpstreamConfig([a], map[], map[], {}), [Default(a)])
            && Means(UpstreamConfig([a], map[u := [b]], map[u := [b]], {}), [Default(a), Reserve(u, b)])
  {
    var u := UNQUALIFIED_NAMES;
    ConfigMeansRules([Default(a)]);
    assert ApplyRules(EMPTY, [Default(a)]) == EMPTY.(defaults := [a]);
    var rules := [Default(a), Reserve(u, b)];
    ConfigMeansRules(rules);
    assert rules[..1] == [Default(a)] && u[0] == 'u';
    var t := ApplyRule(EMPTY.(defaults := [a]), rules[1]);
    assert ApplyRules(EMPTY, rules) == t && [] + [b] == [b];
    assert t.reserved == t.specified == map[u := [b]] && t.reserved + t.subdomainsOnly == t.reserved;
    assert Finish(ApplyRules(EMPTY, rules)) == UpstreamConfig([a], map[u := [b]], map[u := [b]], {});
  }

  /** A line for unqualified names can change where a name goes exactly if the name reads what is
      said about them: names of one label and, among names without a final separator, those that
      end in the reserved key itself. */
  lemma UnqualifiedMattersIff(env: Env, q: string)
    requires env.make("a").Some? && env.make("b").Some? && env.make("a") != env.make("b")
    ensures ReadsUnqualified(q) <==> exists before, U, after :: LineMatters(env, before, "[//]" + U, after, q)
  {
    if ReadsUnqualified(q) {
      UnqualifiedRead(env, q);
      assert "[//]" + "b" == "[//]b";
    } else {
      forall before, U, after ensures !LineMatters(env, before, "[//]" + U, after, q) {
        forall c, d | Means(c, AllRules(env, before + after)) && Means(d, AllRules(env, before + ["[//]" + U] + after))
          ensures Route(c, q) == Route(d, q)
        {
          UnqualifiedLineInserted(env, before, U, after, c, d);
          UnqualifiedNotRead(c, d, q);
        }
      }
    }
  }

  /** A fully qualified name reads it only if it has a single label. */
  lemma QualifiedReadsIff(q: string)
    requires q != "" && q[|q| - 1] == '.'
    ensures ReadsUnqualified(q) <==> SingleLabel(Lower(q))
  {
    var u := UNQUALIFIED_NAMES;
    assert u[|u| - 1] == 's' && Lower(q)[|q| - 1] == '.';
  }

  /** A parsed configuration meets what the lookup asks of its caller. */
  lemma ParsedConfigUsable(env: Env, lines: seq<string>, c: UpstreamConfig)
    requires !env.validDomain("*")
    requires Means(c, AllRules(env, lines))
    ensures forall h :: h in c.subdomainExclusions ==> '.' in h
    ensures c.reserved == map[] ==> c.subdomainExclusions == {}
  {
    forall h | h in c.subdomainExclusions ensures '.' in h { ApexHasDot(env, lines, h); }
    forall h | h in c.subdomainExclusions ensures h in c.reserved {
      assert Get(c.reserved, h) == WildOf(AllRules(env, lines), h);
    }
  }

  // The route, read off the rules alone.

  /** The final list of a domain: the fold of its wildcard rules if it has any, else of its plain
      rules. */
  function ListOf(rules: seq<Rule>, h: string): Option<seq<Upstream>> {
    if WildOf(rules, h).Some? then WildOf(rules, h) else PlainOf(rules, h)
  }

  function EffectiveOf(rules: seq<Rule>, h: string): seq<Upstream> {
    if Listed(ListOf(rules, h)) == [] then DefaultsOf(rules) else Listed(ListOf(rules, h))
  }

  /** `d` is the longest label suffix of `name` that some rule is about. */
  ghost predicate LongestRuled(rules: seq<Rule>, name: string, d: string) {
    && ProperSuffix(d, name) && ListOf(rules, d).Some?
    && forall e :: ProperSuffix(e, name) && ListOf(rules, e).Some? ==> |e| <= |d|
  }

  ghost function RouteByRules(rules: seq<Rule>, q: string): seq<Upstream> {
    var name := Lower(q);
    if WildOf(rules, name).Some? then
      if Listed(PlainOf(rules, name)) != [] then PlainOf(rules, name).value else EffectiveOf(rules, AfterDot(name))
    else if ListOf(rules, name).Some? then EffectiveOf(rules, name)
    else if SingleLabel(name) then EffectiveOf(rules, UNQUALIFIED_NAMES)
    else if d :| LongestRuled(rules, name, d) then EffectiveOf(rules, d)
    else DefaultsOf(rules)
  }

  lemma RouteReadsRules(c: UpstreamConfig, rules: seq<Rule>, q: string)
    requires Means(c, rules)
    ensures Route(c, q) == RouteByRules(rules, q)
  {
    var name := Lower(q);
    forall h: string ensures Get(c.reserved, h) == ListOf(rules, h) {}
    assert Get(c.reserved, name) == ListOf(rules, name) && Get(c.specified, name) == PlainOf(rules, name);
    assert Get(c.reserved, AfterDot(name)) == ListOf(rules, AfterDot(name));
    assert Get(c.reserved, UNQUALIFIED_NAMES) == ListOf(rules, UNQUALIFIED_NAMES);
    forall d ensures MostSpecific(c, name, d) <==> LongestRuled(rules, name, d) {
      SpecificIsLongest(c, rules, name, d);
    }
    forall g, h | MostSpecific(c, name, g) && MostSpecific(c, name, h) ensures g == h {
      MostSpecificUnique(c, name, g, h);
    }
  }

  lemma SpecificIsLongest(c: UpstreamConfig, rules: seq<Rule>, name: string, d: string)
    requires Means(c, rules)
    ensures MostSpecific(c, name, d) <==> LongestRuled(rules, name, d)
  {
    forall h: string ensures h in c.reserved <==> ListOf(rules, h).Some? {
      assert Get(c.reserved, h) == ListOf(rules, h);
    }
  }

  /** Parsing any lines and looking up any name: the answer is what the rules of the lines say, and
      there is none exactly if some line makes the parser panic. */
  method ParseAndLookup(env: Env, lines: seq<string>, q: string) returns (ups: Option<seq<Upstream>>)
    requires !env.validDomain("*")
    ensures ups.None? <==> exists i :: 0 <= i < |lines| && LacksUpstream(env, lines[i])
    ensures ups.Some? ==> ups.value == RouteByRules(AllRules(env, lines), q)
  {
    var parser := new Parser(env);
    var c, _ := parser.Parse(lines);
    if c.None? { return None; }
    ParsedConfigUsable(env, lines, c.value);
    RouteReadsRules(c.value, AllRules(env, lines), q);
    var found := GetUpstreamsForDomain(c.value, q);
    ups := Some(found);
  }
}
