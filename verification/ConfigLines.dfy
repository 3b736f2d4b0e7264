/** What a line of the upstream configuration says, written out in characters. */
module ConfigLines {
  import opened Bytes
  import opened Strings
  import opened UpstreamRules
  import opened Routing

  const WHITE := " \t\n\U{0B}\U{0C}\r"

  function Joined(parts: seq<string>, sep: string): string
    requires parts != []
  {
    if |parts| == 1 then parts[0] else parts[0] + sep + Joined(parts[1..], sep)
  }

  /** A line for the domains `ds` and the upstreams at `us`, with `gap` between these. */
  function DomainLine(ds: seq<string>, us: seq<string>, gap: string): string
    requires ds != [] && us != []
  {
    "[/" + Joined(ds, "/") + "/]" + Joined(us, gap)
  }

  predicate Allowed(env: Env, d: string) {
    d == "" || env.validDomain(if IsWild(d) then d[2..] else d)
  }

  /** Domains that are allowed and differ by more than case, addresses without white space, and
      white space between them. */
  ghost predicate WellFormed(env: Env, ds: seq<string>, us: seq<string>, gap: string) {
    && ds != [] && us != [] && gap != "" && !env.validDomain("*")
    && (forall d :: d in ds ==> '/' !in d && ']' !in d && Allowed(env, d))
    && (forall i, j :: 0 <= i < j < |ds| ==> !SameFold(ds[i], ds[j]))
    && (forall u :: u in us ==> u != "" && forall c :: c in u ==> c !in WHITE)
    && (forall c :: c in gap ==> c in WHITE)
  }

  // Taking the line apart.

  lemma WhiteIsSpace(c: char)
    ensures c in WHITE <==> IsSpace(c)
  {
    assert WHITE[0] == ' ' && WHITE[1] == '\t' && WHITE[2] == '\n' && WHITE[5] == '\r';
    assert WHITE[3] as int == 11 && WHITE[4] as int == 12;
  }

  lemma {:induction false} SplitJoined(ds: seq<string>)
    requires ds != [] && forall d :: d in ds ==> '/' !in d
    ensures Strings.Split(Joined(ds, "/"), '/') == ds
  {
    assert ds[0] in ds;
    if |ds| == 1 {
      SplitWhole(ds[0], '/');
    } else {
      SplitJoined(ds[1..]);
      SplitFirst(ds[0], '/', Joined(ds[1..], "/"));
    }
  }

  lemma {:induction false} FieldsGap(a: string, gap: string, b: string)
    requires gap != "" && forall c :: c in gap ==> IsSpace(c)
    ensures Fields(a + gap + b) == Fields(a) + Fields(b)
    decreases |gap|
  {
    var w, rest := gap[0], gap[1..];
    assert a + gap + b == a + [w] + (rest + b);
    FieldsConcat(a, w, rest + b);
    if rest == "" {
      assert rest + b == b;
    } else {
      FieldsGap("", rest, b);
      assert "" + rest + b == rest + b;
    }
  }

  lemma {:induction false} FieldsJoined(us: seq<string>, gap: string)
    requires us != [] && gap != "" && forall c :: c in gap ==> IsSpace(c)
    requires forall u :: u in us ==> u != "" && NoSpace(u)
    ensures Fields(Joined(us, gap)) == us
  {
    assert us[0] in us;
    FieldsWhole(us[0]);
    if |us| > 1 {
      assert forall u :: u in us[1..] ==> u in us;
      FieldsJoined(us[1..], gap);
      FieldsGap(us[0], gap, Joined(us[1..], gap));
    }
  }

  lemma {:induction false} JoinedLacks(ds: seq<string>, c: char)
    requires ds != [] && c != '/' && forall d :: d in ds ==> c !in d
    ensures c !in Joined(ds, "/")
  {
    assert ds[0] in ds;
    if |ds| > 1 { JoinedLacks(ds[1..], c); }
  }

  lemma EndOfDomains(D: string, U: string)
    requires ']' !in D
    ensures IndexOf(D + "/]" + U, "/]") == |D|
  {
    var s := D + "/]" + U;
    assert s[|D|..] == "/]" + U;
    forall j | 0 <= j < |D| ensures !("/]" <= s[j..]) {
      assert s[j..][1] == s[j + 1] && "/]"[1] == ']';
      if j + 1 < |D| { assert s[j + 1] in D; }
    }
    IndexOfAt(s, "/]", |D|);
  }

  lemma LowerDot(d: string)
    ensures Lower(d + ".") == Lower(d) + "."
  {
  }

  lemma AllowedIsAccepted(env: Env, ds: seq<string>)
    requires forall d :: d in ds ==> Allowed(env, d)
    ensures AllAccepted(env, ds)
  {
    forall k | 0 <= k < |ds| ensures DomainAccepted(env, ds[k]) { assert ds[k] in ds; }
  }

  /** The line is split into exactly its domains and its addresses. */
  lemma SplitsAsWritten(env: Env, ds: seq<string>, us: seq<string>, gap: string)
    requires WellFormed(env, ds, us, gap)
    ensures SplitConfigLine(env, DomainLine(ds, us, gap)) == Split(us, DomainKeys(ds))
  {
    var D, U := Joined(ds, "/"), Joined(us, gap);
    JoinedLacks(ds, ']');
    EndOfDomains(D, U);
    SplitAtSeparator(env, D, U);
    SplitJoined(ds);
    AllowedIsAccepted(env, ds);
    forall c | c in gap ensures IsSpace(c) { WhiteIsSpace(c); }
    forall u | u in us ensures NoSpace(u) {
      forall i | 0 <= i < |u| ensures !IsSpace(u[i]) { assert u[i] in u; WhiteIsSpace(u[i]); }
    }
    FieldsJoined(us, gap);
    assert us[0] in us && Fields("") == [];
  }

  /** A domain line is malformed exactly if nothing follows the domains or one is not allowed. */
  lemma MalformedIff(env: Env, ds: seq<string>, U: string)
    requires ds != [] && forall d :: d in ds ==> '/' !in d && ']' !in d
    ensures SplitConfigLine(env, "[/" + Joined(ds, "/") + "/]" + U).BadLine? <==>
            U == "" || exists d :: d in ds && !Allowed(env, d)
  {
    JoinedLacks(ds, ']');
    EndOfDomains(Joined(ds, "/"), U);
    SplitAtSeparator(env, Joined(ds, "/"), U);
    SplitJoined(ds);
    if AllAccepted(env, ds) {
      forall d | d in ds ensures Allowed(env, d) { assert exists k :: 0 <= k < |ds| && ds[k] == d; }
    } else {
      var k :| 0 <= k < |ds| && !DomainAccepted(env, ds[k]);
      assert ds[k] in ds;
    }
  }

  /** So is one whose domains do not end. */
  lemma UnclosedIsMalformed(env: Env, rest: string)
    requires forall j :: 0 <= j <= |rest| ==> !("/]" <= rest[j..])
    ensures SplitConfigLine(env, "[/" + rest).BadLine?
  {
    IndexOfMeans(rest, "/]");
    assert ("[/" + rest)[2..] == rest;
  }

  // The keys.

  /** `h` is the key of `d`: lower case, with a final separator. */
  predicate KeyIs(d: string, h: string) {
    if d == "" then h == UNQUALIFIED_NAMES else h == Lower(d) + "."
  }

  ghost predicate NamesPlain(ds: seq<string>, h: string) {
    exists d :: d in ds && !IsWild(d) && KeyIs(d, h)
  }

  ghost predicate NamesWild(ds: seq<string>, h: string) {
    exists d :: d in ds && IsWild(d) && h == Lower(d[2..]) + "."
  }

  lemma PlainKey(d: string, h: string)
    requires d != "*"
    ensures !IsWild(h) && DomainKey(d) == h <==> !IsWild(d) && KeyIs(d, h)
  {
    LowerDot(d);
    var u := UNQUALIFIED_NAMES;
    assert u[0] == 'u';
    if d != "" { KeyStart(d); }
  }

  lemma KeyStart(d: string)
    requires d != "" && d != "*"
    ensures IsWild(Lower(d) + ".") <==> IsWild(d)
  {
    var k := Lower(d) + ".";
    assert k[0] == LowerChar(d[0]);
    if |d| > 1 { assert k[1] == LowerChar(d[1]); } else { assert d == [d[0]]; }
  }

  lemma WildKey(d: string, h: string)
    requires d != "*"
    ensures DomainKey(d) == "*." + h <==> IsWild(d) && h == Lower(d[2..]) + "."
  {
    LowerDot(d);
    var u := UNQUALIFIED_NAMES;
    assert u[0] == 'u' && ("*." + h)[0] == '*' && ("*." + h)[2..] == h;
    if d != "" {
      KeyStart(d);
      if IsWild(d) {
        assert Lower(d) + "." == "*." + (Lower(d[2..]) + ".");
      }
    }
  }

  lemma KeysNamed(ds: seq<string>, h: string)
    requires "*" !in ds
    ensures h in DomainKeys(ds) && !IsWild(h) <==> NamesPlain(ds, h)
    ensures "*." + h in DomainKeys(ds) <==> NamesWild(ds, h)
  {
    var keys := DomainKeys(ds);
    forall k | 0 <= k < |ds|
      ensures !IsWild(h) && keys[k] == h <==> !IsWild(ds[k]) && KeyIs(ds[k], h)
      ensures keys[k] == "*." + h <==> IsWild(ds[k]) && h == Lower(ds[k][2..]) + "."
    {
      assert ds[k] in ds;
      PlainKey(ds[k], h);
      WildKey(ds[k], h);
    }
    if NamesPlain(ds, h) {
      var d :| d in ds && !IsWild(d) && KeyIs(d, h);
      var k :| 0 <= k < |ds| && ds[k] == d;
      assert keys[k] == h;
    }
    if NamesWild(ds, h) {
      var d :| d in ds && IsWild(d) && h == Lower(d[2..]) + ".";
      var k :| 0 <= k < |ds| && ds[k] == d;
      assert keys[k] == "*." + h;
    }
  }

  ghost predicate Distinct(keys: seq<string>) {
    forall i, j :: 0 <= i < j < |keys| ==> keys[i] != keys[j]
  }

  lemma SameKey(d: string, e: string)
    ensures DomainKey(d) == DomainKey(e) ==> SameFold(d, e)
  {
    LowerDot(d);
    LowerDot(e);
    var u := UNQUALIFIED_NAMES;
    assert u[|u| - 1] == 's';
    if d != "" && e != "" {
      assert Lower(d) == DomainKey(d)[..|d|] && Lower(e) == DomainKey(e)[..|e|];
      assert |DomainKey(d)| == |d| + 1 && |DomainKey(e)| == |e| + 1;
    }
  }

  lemma KeysDistinct(ds: seq<string>)
    requires forall i, j :: 0 <= i < j < |ds| ==> !SameFold(ds[i], ds[j])
    ensures Distinct(DomainKeys(ds))
  {
    forall i, j | 0 <= i < j < |ds| ensures DomainKey(ds[i]) != DomainKey(ds[j]) {
      SameKey(ds[i], ds[j]);
    }
  }

  // What a line adds.

  lemma ReserveSnoc(rules: seq<Rule>, r: Rule, h: string)
    requires !r.Default?
    ensures PlainOf(rules + [r], h) ==
            if r.host != h || IsWild(h) then PlainOf(rules, h)
            else Some(if r.Exclude? then [] else Listed(PlainOf(rules, h)) + [r.up])
    ensures WildOf(rules + [r], h) ==
            if r.host != "*." + h then WildOf(rules, h)
            else Some(if r.Exclude? then [] else Listed(WildOf(rules, h)) + [r.up])
    ensures DefaultsOf(rules + [r]) == DefaultsOf(rules)
  {
    assert (rules + [r])[..|rules|] == rules;
  }

  function Added(before: Option<seq<Upstream>>, named: bool, ups: seq<Upstream>): Option<seq<Upstream>> {
    if named then Some(Listed(before) + ups) else before
  }

  /** After `all`, the lists of the keyed domains have `ups` added, compared with `rules`. */
  ghost predicate Adds(rules: seq<Rule>, all: seq<Rule>, keys: seq<string>, ups: seq<Upstream>, h: string) {
    && PlainOf(all, h) == Added(PlainOf(rules, h), h in keys && !IsWild(h), ups)
    && WildOf(all, h) == Added(WildOf(rules, h), "*." + h in keys, ups)
    && DefaultsOf(all) == DefaultsOf(rules)
  }

  lemma AddedTwice(before: Option<seq<Upstream>>, named: bool, up: Upstream, ups: seq<Upstream>)
    ensures Added(Added(before, named, [up]), named, ups) == Added(before, named, [up] + ups)
  {
    assert Listed(before) + [up] + ups == Listed(before) + ([up] + ups);
  }

  lemma AddsTwice(rules: seq<Rule>, mid: seq<Rule>, all: seq<Rule>, keys: seq<string>, up: Upstream,
                  ups: seq<Upstream>, h: string)
    requires Adds(rules, mid, keys, [up], h) && Adds(mid, all, keys, ups, h)
    ensures Adds(rules, all, keys, [up] + ups, h)
  {
    AddedTwice(PlainOf(rules, h), h in keys && !IsWild(h), up, ups);
    AddedTwice(WildOf(rules, h), "*." + h in keys, up, ups);
  }

  lemma {:induction false} ReservationsAppend(rules: seq<Rule>, keys: seq<string>, up: Upstream, h: string)
    requires Distinct(keys)
    ensures Adds(rules, rules + Reservations(keys, up), keys, [up], h)
  {
    if keys == [] {
      assert rules + Reservations(keys, up) == rules;
    } else {
      var front, last := keys[..|keys| - 1], keys[|keys| - 1];
      ReservationsAppend(rules, front, up, h);
      ReserveSnoc(rules + Reservations(front, up), Reserve(last, up), h);
      assert rules + Reservations(keys, up) == rules + Reservations(front, up) + [Reserve(last, up)];
      assert keys == front + [last] && last !in front;
    }
  }

  /** After `all`, the lists of the keyed domains are empty, compared with `rules`. */
  ghost predicate Resets(rules: seq<Rule>, all: seq<Rule>, keys: seq<string>, h: string) {
    && PlainOf(all, h) == (if h in keys && !IsWild(h) then Some([]) else PlainOf(rules, h))
    && WildOf(all, h) == (if "*." + h in keys then Some([]) else WildOf(rules, h))
    && DefaultsOf(all) == DefaultsOf(rules)
  }

  lemma {:induction false} ExclusionsAppend(rules: seq<Rule>, keys: seq<string>, h: string)
    ensures Resets(rules, rules + Exclusions(keys), keys, h)
  {
    if keys == [] {
      assert rules + Exclusions(keys) == rules;
    } else {
      var front, last := keys[..|keys| - 1], keys[|keys| - 1];
      ExclusionsAppend(rules, front, h);
      ReserveSnoc(rules + Exclusions(front), Exclude(last), h);
      assert rules + Exclusions(keys) == rules + Exclusions(front) + [Exclude(last)];
      assert h in keys <==> h in front || h == last by { assert keys == front + [last]; }
      assert "*." + h in keys <==> "*." + h in front || "*." + h == last by { assert keys == front + [last]; }
    }
  }

  /** `ups` are the upstreams at `us`. */
  ghost predicate Made(env: Env, us: seq<string>, ups: seq<Upstream>) {
    |ups| == |us| && forall i :: 0 <= i < |us| ==> env.make(us[i]) == Some(ups[i])
  }

  lemma {:induction false} SpecifyAppends(env: Env, rules: seq<Rule>, keys: seq<string>, us: seq<string>,
                                          ups: seq<Upstream>, h: string)
    requires Distinct(keys) && keys != [] && us != [] && Made(env, us, ups)
    ensures Adds(rules, rules + SpecifyRules(env, keys, us), keys, ups, h)
    decreases |us|
  {
    var first, rest := Reservations(keys, ups[0]), SpecifyRules(env, keys, us[1..]);
    assert rules + SpecifyRules(env, keys, us) == rules + first + rest;
    ReservationsAppend(rules, keys, ups[0], h);
    if |us| == 1 {
      assert rules + first + rest == rules + first && ups == [ups[0]];
    } else {
      SpecifyAppends(env, rules + first, keys, us[1..], ups[1..], h);
      AddsTwice(rules, rules + first, rules + first + rest, keys, ups[0], ups[1..], h);
      assert ups == [ups[0]] + ups[1..];
    }
  }

  /** The list a line leaves for a domain it names: `#` resets it, else its upstreams are added. */
  function ListAfter(before: Option<seq<Upstream>>, us: seq<string>, ups: seq<Upstream>): Option<seq<Upstream>>
    requires us != []
  {
    Some(if us[0] == "#" then [] else Listed(before) + ups)
  }

  lemma AllRulesAppend(env: Env, before: seq<string>, line: string)
    ensures AllRules(env, before + [line]) == AllRules(env, before) + LineRules(env, line)
  {
    assert (before + [line])[..|before|] == before;
  }

  /** Exactly what a domain line changes, wherever it stands: the lists of the domains it names, plain
      or for their subdomains only, and nothing else. */
  lemma LineAppends(env: Env, before: seq<string>, ds: seq<string>, us: seq<string>, gap: string, ups: seq<Upstream>,
                    h: string)
    requires WellFormed(env, ds, us, gap) && (us[0] == "#" || Made(env, us, ups))
    ensures var rules, all := AllRules(env, before), AllRules(env, before + [DomainLine(ds, us, gap)]);
            && PlainOf(all, h) == (if NamesPlain(ds, h) then ListAfter(PlainOf(rules, h), us, ups)
                                   else PlainOf(rules, h))
            && WildOf(all, h) == (if NamesWild(ds, h) then ListAfter(WildOf(rules, h), us, ups) else WildOf(rules, h))
            && DefaultsOf(all) == DefaultsOf(rules)
  {
    var line, keys, rules := DomainLine(ds, us, gap), DomainKeys(ds), AllRules(env, before);
    SplitsAsWritten(env, ds, us, gap);
    AllRulesAppend(env, before, line);
    KeysNamed(ds, h);
    KeysDistinct(ds);
    if us[0] == "#" {
      ExclusionsAppend(rules, keys, h);
    } else {
      SpecifyAppends(env, rules, keys, us, ups, h);
    }
  }

  /** A line that is just an address adds a default upstream; a comment or an empty line nothing. */
  lemma PlainLineAppends(env: Env, before: seq<string>, line: string, h: string)
    requires !("[/" <= line)
    ensures var rules, all := AllRules(env, before), AllRules(env, before + [line]);
            && PlainOf(all, h) == PlainOf(rules, h) && WildOf(all, h) == WildOf(rules, h)
            && DefaultsOf(all) == DefaultsOf(rules) +
                 (if line == "" || line[0] == '#' || env.make(line).None? then [] else [env.make(line).value])
  {
    AllRulesAppend(env, before, line);
    var rules := AllRules(env, before);
    if line == "" || line[0] == '#' || env.make(line).None? {
      assert rules + LineRules(env, line) == rules;
    } else {
      var r := Default(env.make(line).value);
      assert SpecifyRules(env, [], [line]) == [r];
      assert (rules + [r])[..|rules|] == rules;
    }
  }

  /** A well-formed line fails exactly if it does not exclude and one of its upstreams cannot be made. */
  lemma DomainLineFailsIff(env: Env, ds: seq<string>, us: seq<string>, gap: string)
    requires WellFormed(env, ds, us, gap)
    ensures LineFails(env, DomainLine(ds, us, gap)) <==> us[0] != "#" && exists u :: u in us && env.make(u).None?
  {
    SplitsAsWritten(env, ds, us, gap);
    if exists u :: u in us && env.make(u).None? {
      var u :| u in us && env.make(u).None?;
      var k :| 0 <= k < |us| && us[k] == u;
    }
  }

  lemma {:induction false} SpecifyStops(env: Env, keys: seq<string>, us: seq<string>, bad: string, rest: seq<string>)
    requires env.make(bad).None? && forall u :: u in us ==> env.make(u).Some?
    ensures SpecifyRules(env, keys, us + [bad] + rest) == SpecifyRules(env, keys, us)
  {
    var all := us + [bad] + rest;
    if us == [] {
      assert all[0] == bad;
    } else {
      assert all[0] == us[0] && us[0] in us && all[1..] == us[1..] + [bad] + rest;
      assert forall u :: u in us[1..] ==> u in us;
      SpecifyStops(env, keys, us[1..], bad, rest);
    }
  }

  /** It then says what it would say if it ended before the first such upstream. */
  lemma FailedLineSays(env: Env, before: seq<string>, ds: seq<string>, us: seq<string>, bad: string, rest: seq<string>,
                       gap: string)
    requires WellFormed(env, ds, us + [bad] + rest, gap) && us != [] && us[0] != "#"
    requires env.make(bad).None? && forall u :: u in us ==> env.make(u).Some?
    ensures AllRules(env, before + [DomainLine(ds, us + [bad] + rest, gap)])
         == AllRules(env, before + [DomainLine(ds, us, gap)])
  {
    var all := us + [bad] + rest;
    assert forall u :: u in us ==> u in all;
    SplitsAsWritten(env, ds, all, gap);
    SplitsAsWritten(env, ds, us, gap);
    AllRulesAppend(env, before, DomainLine(ds, all, gap));
    AllRulesAppend(env, before, DomainLine(ds, us, gap));
    SpecifyStops(env, DomainKeys(ds), us, bad, rest);
  }

  // Where names go, by the lines as they are written.

  /** A default upstream at `address`, and a line for domains. */
  ghost predicate Configured(env: Env, address: string, ds: seq<string>, us: seq<string>, gap: string,
                             ups: seq<Upstream>) {
    && address != "" && address[0] != '#' && !("[/" <= address) && env.make(address).Some?
    && WellFormed(env, ds, us, gap) && us[0] != "#" && Made(env, us, ups)
  }

  lemma ConfiguredLists(env: Env, address: string, ds: seq<string>, us: seq<string>, gap: string, ups: seq<Upstream>,
                        h: string)
    requires Configured(env, address, ds, us, gap, ups)
    ensures var rules := AllRules(env, [address, DomainLine(ds, us, gap)]);
            && PlainOf(rules, h) == (if NamesPlain(ds, h) then Some(ups) else None)
            && WildOf(rules, h) == (if NamesWild(ds, h) then Some(ups) else None)
            && DefaultsOf(rules) == [env.make(address).value]
  {
    PlainLineAppends(env, [], address, h);
    LineAppends(env, [address], ds, us, gap, ups, h);
    assert [] + [address] == [address] && [address] + [DomainLine(ds, us, gap)] == [address, DomainLine(ds, us, gap)];
    assert [] + ups == ups && AllRules(env, []) == [];
  }

  /** A domain that the line names goes to the line's upstreams, in any case of its letters. */
  lemma NamedGoesToLine(env: Env, address: string, ds: seq<string>, us: seq<string>, gap: string, ups: seq<Upstream>,
                        d: string, q: string)
    requires Configured(env, address, ds, us, gap, ups)
    requires d in ds && d != "" && !IsWild(d) && SameFold(q, d + ".")
    ensures RouteByRules(AllRules(env, [address, DomainLine(ds, us, gap)]), q) == ups
  {
    ConfiguredLists(env, address, ds, us, gap, ups, Lower(q));
    LowerDot(d);
    assert KeyIs(d, Lower(q));
  }

  /** The domain without its wildcard mark. */
  function Base(d: string): string { if IsWild(d) then d[2..] else d }

  ghost predicate Named(ds: seq<string>, h: string) { NamesPlain(ds, h) || NamesWild(ds, h) }

  lemma BaseNamed(ds: seq<string>, d: string)
    requires d in ds && d != ""
    ensures Named(ds, Lower(Base(d)) + ".")
  {
    if !IsWild(d) { assert KeyIs(d, Lower(d) + "."); }
  }

  lemma LowerBelow(x: string, b: string)
    ensures Lower(x + "." + b + ".") == Lower(x) + "." + Lower(b) + "."
    ensures ProperSuffix(Lower(b) + ".", Lower(x + "." + b + ".")) && AfterDot(Lower(x + "." + b + ".")) != ""
  {
    var name := Lower(x + "." + b + ".");
    assert name == Lower(x) + "." + Lower(b) + ".";
    assert name[|x|] == '.' && name[|x| + 1..] == Lower(b) + ".";
    AfterDotIsNext(name);
  }

  lemma {:induction false} LongestRuledExists(rules: seq<Rule>, name: string, d: string) returns (e: string)
    requires ProperSuffix(d, name) && ListOf(rules, d).Some?
    ensures LongestRuled(rules, name, e)
    decreases |name| - |d|
  {
    if LongestRuled(rules, name, d) {
      e := d;
    } else {
      var f :| ProperSuffix(f, name) && ListOf(rules, f).Some? && |f| > |d|;
      e := LongestRuledExists(rules, name, f);
    }
  }

  /** Every list that is there is `ups`. */
  ghost predicate OnlyList(rules: seq<Rule>, ups: seq<Upstream>) {
    forall h :: ListOf(rules, h).Some? ==> ListOf(rules, h).value == ups
  }

  lemma ConfiguredOnly(env: Env, address: string, ds: seq<string>, us: seq<string>, gap: string, ups: seq<Upstream>)
    requires Configured(env, address, ds, us, gap, ups)
    ensures OnlyList(AllRules(env, [address, DomainLine(ds, us, gap)]), ups)
  {
    forall h { ConfiguredLists(env, address, ds, us, gap, ups, h); }
  }

  lemma RouteBelow(rules: seq<Rule>, ups: seq<Upstream>, q: string, d: string)
    requires OnlyList(rules, ups) && ups != [] && WildOf(rules, Lower(q)).None?
    requires ProperSuffix(d, Lower(q)) && AfterDot(Lower(q)) != "" && ListOf(rules, d).Some?
    ensures RouteByRules(rules, q) == ups
  {
    var e := LongestRuledExists(rules, Lower(q), d);
  }

  /** So does every name below such a domain, with or without its wildcard mark, unless the name is
      itself named with one. */
  lemma BelowGoesToLine(env: Env, address: string, ds: seq<string>, us: seq<string>, gap: string, ups: seq<Upstream>,
                        d: string, x: string, q: string)
    requires Configured(env, address, ds, us, gap, ups)
    requires d in ds && d != "" && SameFold(q, x + "." + Base(d) + ".") && !NamesWild(ds, Lower(q))
    ensures RouteByRules(AllRules(env, [address, DomainLine(ds, us, gap)]), q) == ups
  {
    var h := Lower(Base(d)) + ".";
    ConfiguredOnly(env, address, ds, us, gap, ups);
    ConfiguredLists(env, address, ds, us, gap, ups, Lower(q));
    ConfiguredLists(env, address, ds, us, gap, ups, h);
    LowerBelow(x, Base(d));
    BaseNamed(ds, d);
    RouteBelow(AllRules(env, [address, DomainLine(ds, us, gap)]), ups, q, h);
  }

  /** A domain named only with the wildcard mark goes where its parent goes, if that is named, else to
      the default. */
  lemma ApexGoesToParent(env: Env, address: string, ds: seq<string>, us: seq<string>, gap: string,
                         ups: seq<Upstream>, d: string, q: string)
    requires Configured(env, address, ds, us, gap, ups)
    requires d in ds && IsWild(d) && SameFold(q, d[2..] + ".") && !NamesPlain(ds, Lower(q))
    ensures RouteByRules(AllRules(env, [address, DomainLine(ds, us, gap)]), q)
         == if Named(ds, AfterDot(Lower(q))) then ups else [env.make(address).value]
  {
    LowerDot(d[2..]);
    ConfiguredLists(env, address, ds, us, gap, ups, Lower(q));
    ConfiguredLists(env, address, ds, us, gap, ups, AfterDot(Lower(q)));
  }

  /** A name of one label, not named itself, goes to the line's upstreams exactly if the line has an
      empty domain. */
  lemma LabelGoesToLineIff(env: Env, address: string, ds: seq<string>, us: seq<string>, gap: string,
                           ups: seq<Upstream>, l: string, q: string)
    requires Configured(env, address, ds, us, gap, ups)
    requires l != "" && '.' !in l && SameFold(q, l + ".") && !Named(ds, Lower(q))
    ensures RouteByRules(AllRules(env, [address, DomainLine(ds, us, gap)]), q)
         == if "" in ds then ups else [env.make(address).value]
  {
    LowerDot(l);
    OneLabel(Lower(l));
    ConfiguredLists(env, address, ds, us, gap, ups, Lower(q));
    ConfiguredLists(env, address, ds, us, gap, ups, UNQUALIFIED_NAMES);
    UnqualifiedNamed(ds);
  }

  lemma OneLabel(l: string)
    requires l != "" && '.' !in l
    ensures SingleLabel(l + ".")
  {
    IndexOfChar(l, '.', "");
    assert l + ['.'] + "" == l + ".";
    assert l[0] in l;
  }

  lemma UnqualifiedNamed(ds: seq<string>)
    ensures NamesPlain(ds, UNQUALIFIED_NAMES) <==> "" in ds
    ensures !NamesWild(ds, UNQUALIFIED_NAMES)
  {
    var u := UNQUALIFIED_NAMES;
    assert u[|u| - 1] == 's';
    if "" in ds { assert KeyIs("", u); }
  }

  /** Any other name goes to the default. */
  lemma OthersGoToDefault(env: Env, address: string, ds: seq<string>, us: seq<string>, gap: string,
                          ups: seq<Upstream>, q: string)
    requires Configured(env, address, ds, us, gap, ups)
    requires !Named(ds, Lower(q)) && !SingleLabel(Lower(q)) && forall e :: ProperSuffix(e, Lower(q)) ==> !Named(ds, e)
    ensures RouteByRules(AllRules(env, [address, DomainLine(ds, us, gap)]), q) == [env.make(address).value]
  {
    forall h ensures ListOf(AllRules(env, [address, DomainLine(ds, us, gap)]), h).Some? <==> Named(ds, h) {
      ConfiguredLists(env, address, ds, us, gap, ups, h);
    }
    ConfiguredLists(env, address, ds, us, gap, ups, Lower(q));
  }

  // Two domain lines, one for a domain below that of the other.

  /** Lines for `c` and for `y.c`, which may be an exclusion. */
  ghost predicate Nested(env: Env, address: string, c: string, us: seq<string>, ups: seq<Upstream>, d: string,
                         vs: seq<string>, vps: seq<Upstream>, gap: string, y: string) {
    && Configured(env, address, [c], us, gap, ups) && c != "" && !IsWild(c)
    && WellFormed(env, [d], vs, gap) && !IsWild(d) && SameFold(d, y + "." + c)
    && (vs[0] == "#" || Made(env, vs, vps))
  }

  function NestedLines(address: string, c: string, us: seq<string>, d: string, vs: seq<string>,
                       gap: string): seq<string>
    requires us != [] && vs != []
  {
    [address, DomainLine([c], us, gap), DomainLine([d], vs, gap)]
  }

  lemma OneNamed(d: string, h: string)
    requires d != "" && !IsWild(d)
    ensures NamesPlain([d], h) <==> h == Lower(d) + "."
    ensures !NamesWild([d], h)
  {
    if h == Lower(d) + "." { assert d in [d] && KeyIs(d, h); }
  }

  lemma NestedLists(env: Env, address: string, c: string, us: seq<string>, ups: seq<Upstream>, d: string,
                    vs: seq<string>, vps: seq<Upstream>, gap: string, y: string, h: string)
    requires Nested(env, address, c, us, ups, d, vs, vps, gap, y)
    ensures var rules := AllRules(env, NestedLines(address, c, us, d, vs, gap));
            && |c| < |d|
            && ListOf(rules, h) == (if h == Lower(d) + "." then Some(if vs[0] == "#" then [] else vps)
                                    else if h == Lower(c) + "." then Some(ups) else None)
            && WildOf(rules, h).None? && DefaultsOf(rules) == [env.make(address).value]
  {
    SameFoldMeans(d, y + "." + c);
    ConfiguredLists(env, address, [c], us, gap, ups, h);
    LineAppends(env, [address, DomainLine([c], us, gap)], [d], vs, gap, vps, h);
    OneNamed(c, h);
    OneNamed(d, h);
    assert [] + vps == vps && |Lower(c)| == |c| && |Lower(d)| == |d|;
    assert [address, DomainLine([c], us, gap)] + [DomainLine([d], vs, gap)] == NestedLines(address, c, us, d, vs, gap);
  }

  /** Only `g` and the shorter `h` have lists. */
  ghost predicate TwoLists(rules: seq<Rule>, g: string, h: string) {
    && |h| < |g| && (forall e :: ListOf(rules, e).Some? <==> e == g || e == h) && forall e :: WildOf(rules, e).None?
  }

  /** The name is `h` or lies below it. */
  ghost predicate AtOrBelow(name: string, h: string) {
    name == h || (ProperSuffix(h, name) && AfterDot(name) != "")
  }

  lemma LongerWins(rules: seq<Rule>, g: string, h: string, q: string)
    requires TwoLists(rules, g, h) && AtOrBelow(Lower(q), g)
    ensures RouteByRules(rules, q) == EffectiveOf(rules, g)
  {
    if Lower(q) != g { assert LongestRuled(rules, Lower(q), g); }
  }

  lemma ShorterServes(rules: seq<Rule>, g: string, h: string, q: string)
    requires TwoLists(rules, g, h) && AtOrBelow(Lower(q), h) && Lower(q) != g && !ProperSuffix(g, Lower(q))
    ensures RouteByRules(rules, q) == EffectiveOf(rules, h)
  {
    if Lower(q) != h { assert LongestRuled(rules, Lower(q), h); }
  }

  lemma FoldedBelow(q: string, x: string, d: string)
    requires SameFold(q, d + ".") || SameFold(q, x + "." + d + ".")
    ensures AtOrBelow(Lower(q), Lower(d) + ".")
  {
    LowerDot(d);
    LowerBelow(x, d);
  }

  lemma NestedTwoLists(env: Env, address: string, c: string, us: seq<string>, ups: seq<Upstream>, d: string,
                       vs: seq<string>, vps: seq<Upstream>, gap: string, y: string)
    requires Nested(env, address, c, us, ups, d, vs, vps, gap, y)
    ensures var rules, g, h := AllRules(env, NestedLines(address, c, us, d, vs, gap)), Lower(d) + ".", Lower(c) + ".";
            && TwoLists(rules, g, h) && EffectiveOf(rules, h) == ups
            && EffectiveOf(rules, g) == if vs[0] == "#" then [env.make(address).value] else vps
  {
    forall h { NestedLists(env, address, c, us, ups, d, vs, vps, gap, y, h); }
    NestedLists(env, address, c, us, ups, d, vs, vps, gap, y, Lower(c) + ".");
    NestedLists(env, address, c, us, ups, d, vs, vps, gap, y, Lower(d) + ".");
  }

  /** Of two domains a name lies below, the longer one's line decides: its upstreams, or the default
      if it excludes. */
  lemma MoreSpecificWins(env: Env, address: string, c: string, us: seq<string>, ups: seq<Upstream>, d: string,
                         vs: seq<string>, vps: seq<Upstream>, gap: string, y: string, x: string, q: string)
    requires Nested(env, address, c, us, ups, d, vs, vps, gap, y)
    requires SameFold(q, d + ".") || SameFold(q, x + "." + d + ".")
    ensures RouteByRules(AllRules(env, NestedLines(address, c, us, d, vs, gap)), q)
         == if vs[0] == "#" then [env.make(address).value] else vps
  {
    var rules := AllRules(env, NestedLines(address, c, us, d, vs, gap));
    NestedTwoLists(env, address, c, us, ups, d, vs, vps, gap, y);
    FoldedBelow(q, x, d);
    LongerWins(rules, Lower(d) + ".", Lower(c) + ".", q);
  }

  /** The other names at or below the shorter one go to its upstreams. */
  lemma LessSpecificServes(env: Env, address: string, c: string, us: seq<string>, ups: seq<Upstream>, d: string,
                           vs: seq<string>, vps: seq<Upstream>, gap: string, y: string, x: string, q: string)
    requires Nested(env, address, c, us, ups, d, vs, vps, gap, y)
    requires SameFold(q, c + ".") || SameFold(q, x + "." + c + ".")
    requires Lower(q) != Lower(d) + "." && !ProperSuffix(Lower(d) + ".", Lower(q))
    ensures RouteByRules(AllRules(env, NestedLines(address, c, us, d, vs, gap)), q) == ups
  {
    var rules := AllRules(env, NestedLines(address, c, us, d, vs, gap));
    NestedTwoLists(env, address, c, us, ups, d, vs, vps, gap, y);
    FoldedBelow(q, x, c);
    ShorterServes(rules, Lower(d) + ".", Lower(c) + ".", q);
  }
}
