/** The parser that folds configuration lines into the tables, and its result. */
module ConfigParser {
  import opened Bytes
  import opened Strings
  import opened UpstreamRules

  /** What parsing one line comes to; an error is reported and parsing goes on. */
  datatype LineResult = Parsed | Failed | Panicked

  /** The loop over the domains of a line. */
  method SplitDomains(env: Env, confHosts: seq<string>) returns (domains: Option<seq<string>>)
    ensures domains == if AllAccepted(env, confHosts) then Some(DomainKeys(confHosts)) else None
  {
    var keys: seq<string> := [];
    for k := 0 to |confHosts|
      invariant AllAccepted(env, confHosts[..k]) && keys == DomainKeys(confHosts[..k])
    {
      var confHost := confHosts[k];
      assert confHosts[..k + 1] == confHosts[..k] + [confHost];
      if confHost == "" {
        keys := keys + [UNQUALIFIED_NAMES];
        continue;
      }
      if !env.validDomain(TrimPrefix(confHost, "*.")) { return None; }
      keys := keys + [Lower(confHost + ".")];
    }
    assert confHosts[..|confHosts|] == confHosts;
    domains := Some(keys);
  }

  method SplitConfLine(env: Env, confLine: string) returns (sp: SplitLine)
    ensures sp == SplitConfigLine(env, confLine)
  {
    if !("[/" <= confLine) { return Split([confLine], []); }
    var rest := confLine[2..];
    var i := IndexOf(rest, "/]");
    if i + 2 >= |rest| { return BadLine; }
    var domains := SplitDomains(env, Strings.Split(rest[..i], '/'));
    sp := if domains.None? then BadLine else Split(Fields(rest[i + 2..]), domains.value);
  }

  /** Every indexed upstream is the one its address makes, and none was made twice. */
  ghost predicate Indexed(env: Env, index: map<string, Upstream>, made: seq<string>) {
    && (forall u :: u in index ==> env.make(u) == Some(index[u]))
    && (forall u :: u in index <==> u in made)
    && (forall i, j :: 0 <= i < j < |made| ==> made[i] != made[j])
  }

  class Parser {
    const env: Env
    var upstreamsIndex: map<string, Upstream>
    var domainReservedUpstreams: Table
    var specifiedDomainUpstreams: Table
    var subdomainsOnlyUpstreams: Table
    var subdomainsOnlyExclusions: set<string>
    var upstreams: seq<Upstream>
    ghost var made: seq<string> // the addresses an upstream was made from, in order

    ghost predicate Valid()
      reads this
    {
      Indexed(env, upstreamsIndex, made)
    }

    function View(): Tables
      reads this
    {
      Tables(domainReservedUpstreams, specifiedDomainUpstreams, subdomainsOnlyUpstreams,
             subdomainsOnlyExclusions, upstreams)
    }

    constructor (env: Env)
      ensures this.env == env && Valid() && View() == EMPTY
    {
      this.env := env;
      upstreamsIndex, upstreams, made := map[], [], [];
      domainReservedUpstreams, specifiedDomainUpstreams, subdomainsOnlyUpstreams := map[], map[], map[];
      subdomainsOnlyExclusions := {};
    }

    method ExcludeFromReserved(domains: seq<string>)
      requires Valid()
      modifies this
      ensures Valid() && View() == ApplyRules(old(View()), Exclusions(domains))
    {
      for i := 0 to |domains|
        invariant Valid() && View() == ApplyRules(old(View()), Exclusions(domains[..i]))
      {
        var host := domains[i];
        ExclusionsSnoc(old(View()), domains, i);
        if "*." <= host {
          var trimmed := host[2..];
          subdomainsOnlyExclusions := subdomainsOnlyExclusions + {trimmed};
          subdomainsOnlyUpstreams := subdomainsOnlyUpstreams[trimmed := []];
          continue;
        }
        domainReservedUpstreams := domainReservedUpstreams[host := []];
        specifiedDomainUpstreams := specifiedDomainUpstreams[host := []];
      }
      assert domains[..|domains|] == domains;
    }

    /** One round of the loop of `includeToReserved`. */
    method IncludeDomain(dnsUpstream: Upstream, domain: string)
      requires Valid()
      modifies this
      ensures Valid() && View() == ApplyRule(old(View()), Reserve(domain, dnsUpstream)) && made == old(made)
    {
      var host := domain;
      if "*." <= host {
        host := host[2..];
        subdomainsOnlyExclusions := subdomainsOnlyExclusions + {host};
        subdomainsOnlyUpstreams := Appended(subdomainsOnlyUpstreams, host, dnsUpstream);
      } else {
        specifiedDomainUpstreams := Appended(specifiedDomainUpstreams, host, dnsUpstream);
      }
      domainReservedUpstreams := Appended(domainReservedUpstreams, host, dnsUpstream);
    }

    method IncludeToReserved(dnsUpstream: Upstream, domains: seq<string>)
      requires Valid()
      modifies this
      ensures Valid() && View() == ApplyRules(old(View()), Reservations(domains, dnsUpstream)) && made == old(made)
    {
      for i := 0 to |domains|
        invariant Valid() && made == old(made)
        invariant View() == ApplyRules(old(View()), Reservations(domains[..i], dnsUpstream))
      {
        ReservationsSnoc(old(View()), domains, dnsUpstream, i);
        IncludeDomain(dnsUpstream, domains[i]);
      }
      assert domains[..|domains|] == domains;
    }

    method SpecifyUpstream(domains: seq<string>, u: string) returns (ok: bool)
      requires Valid()
      modifies this
      ensures Valid() && ok == env.make(u).Some?
      ensures !ok ==> View() == old(View())
      ensures ok ==> View() == ApplyRules(old(View()), UpstreamRules.UpstreamRules(domains, env.make(u).value))
      ensures made == if ok && u !in old(made) then old(made) + [u] else old(made)
    {
      var dnsUpstream;
      if u in upstreamsIndex {
        dnsUpstream := upstreamsIndex[u];
      } else {
        var newUpstream := env.make(u);
        if newUpstream.None? { return false; }
        dnsUpstream := newUpstream.value;
        upstreamsIndex, made := upstreamsIndex[u := dnsUpstream], made + [u];
      }
      if |domains| == 0 {
        upstreams := upstreams + [dnsUpstream];
        assert [Default(dnsUpstream)][..0] == [];
      } else {
        IncludeToReserved(dnsUpstream, domains);
      }
      ok := true;
    }

    /** Taking the first field of an empty upstream part panics, before anything is changed. */
    method ParseLine(confLine: string) returns (r: LineResult)
      requires Valid()
      modifies this
      ensures Valid() && (r.Panicked? <==> LacksUpstream(env, confLine)) && (r.Failed? <==> LineFails(env, confLine))
      ensures View() == if r.Panicked? then old(View()) else ApplyRules(old(View()), LineRules(env, confLine))
    {
      if |confLine| == 0 || confLine[0] == '#' { return Parsed; }
      var sp := SplitConfLine(env, confLine);
      if sp.BadLine? { return Failed; }
      if |sp.upstreams| == 0 { return Panicked; }
      if sp.upstreams[0] == "#" && |sp.domains| > 0 {
        ExcludeFromReserved(sp.domains);
        return Parsed;
      }
      var ok := SpecifyAll(sp.domains, sp.upstreams);
      return if ok then Parsed else Failed;
    }

    /** The loop over the upstreams of a line. */
    method SpecifyAll(domains: seq<string>, ups: seq<string>) returns (ok: bool)
      requires Valid()
      modifies this
      ensures Valid() && ok == forall k :: 0 <= k < |ups| ==> env.make(ups[k]).Some?
      ensures View() == ApplyRules(old(View()), SpecifyRules(env, domains, ups))
    {
      assert ups[0..] == ups;
      for i := 0 to |ups|
        invariant Valid() && forall k :: 0 <= k < i ==> env.make(ups[k]).Some?
        invariant ApplyRules(View(), SpecifyRules(env, domains, ups[i..]))
             == ApplyRules(old(View()), SpecifyRules(env, domains, ups))
      {
        assert ups[i..][1..] == ups[i + 1..];
        ghost var before := View();
        var done := SpecifyUpstream(domains, ups[i]);
        if !done { return false; }
        ApplyRulesConcat(before, UpstreamRules.UpstreamRules(domains, env.make(ups[i]).value),
                         SpecifyRules(env, domains, ups[i + 1..]));
      }
      ok := true;
    }

    /** The loop over the lines, up to the first that panics: errors are reported for exactly the
        lines that fail, in order. `handled` counts the lines before the panic. */
    method ParseLines(lines: seq<string>) returns (errs: seq<nat>, handled: nat)
      requires Valid()
      modifies this
      ensures Valid() && handled <= |lines| && forall i :: 0 <= i < handled ==> !LacksUpstream(env, lines[i])
      ensures handled < |lines| ==> LacksUpstream(env, lines[handled])
      ensures View() == ApplyRules(old(View()), AllRules(env, lines[..handled]))
      ensures errs == FailedLines(env, lines[..handled])
    {
      errs := [];
      for i := 0 to |lines|
        invariant Valid() && View() == ApplyRules(old(View()), AllRules(env, lines[..i]))
        invariant errs == FailedLines(env, lines[..i])
        invariant forall k :: 0 <= k < i ==> !LacksUpstream(env, lines[k])
      {
        AllRulesSnoc(env, old(View()), lines, i);
        var r := ParseLine(lines[i]);
        assert lines[..i + 1][..i] == lines[..i];
        if r.Panicked? { return errs, i; }
        if r.Failed? { errs := errs + [i]; }
      }
      handled := |lines|;
    }

    /** The configuration means the rules of all lines; there is none exactly if some line panics. */
    method Parse(lines: seq<string>) returns (c: Option<UpstreamConfig>, errs: seq<nat>)
      requires Valid() && View() == EMPTY
      modifies this
      ensures c.None? <==> exists i :: 0 <= i < |lines| && LacksUpstream(env, lines[i])
      ensures c.Some? ==> Means(c.value, AllRules(env, lines)) && errs == FailedLines(env, lines)
    {
      var handled;
      errs, handled := ParseLines(lines);
      if handled < |lines| { return None, errs; }
      assert lines[..|lines|] == lines;
      ConfigMeansRules(AllRules(env, lines));
      domainReservedUpstreams := domainReservedUpstreams + subdomainsOnlyUpstreams;
      c := Some(UpstreamConfig(upstreams, domainReservedUpstreams, specifiedDomainUpstreams, subdomainsOnlyExclusions));
    }
  }
}
