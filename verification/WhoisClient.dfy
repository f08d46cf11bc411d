/** The WHOIS referral chain: `internal/whois/client.go`. What a server replies
    is an arbitrary function of the hop and the host asked. */
module WhoisClient {
  import opened Base
  import opened Text

  datatype Response = Response(host: string, query: string, raw: string, truncated: bool)

  datatype Exchange = Exchange(host: string, query: string, bytes: nat, truncated: bool, referral: string)

  datatype Warning =
    | ReferralLoop(host: string)
    | ReferralFailed(host: string)
    | EmptyResponse(host: string)
    | EmptyReferral(host: string)
    | NotFollowed(next: string)
    | NoData

  datatype Lookup = Lookup(
    raw: string, chain: seq<Exchange>, servers: seq<string>, truncated: bool, warnings: seq<Warning>)

  datatype LookupError = NoHost | FirstHopFailed(host: string)

  /** The registry's quirks, the servers, and the cap on referrals, which is two
      in the source. */
  datatype Net = Net(referralsAllowed: bool, reply: (nat, string) -> Option<Response>, cap: nat)

  // ---- finding the referral in a reply

  /** From the most to the least specific. */
  const REFERRAL_LABELS := ["registrar whois server", "whois server", "refer", "whois"]

  function SplitField(line: string): Option<(string, string)> {
    var s := TrimSpace(TrimCR(line));
    var i := IndexOf(s, ':');
    if s == "" || s[0] == '%' || s[0] == '#' || i == 0 || i == |s| then None
    else Some((TrimSpace(s[..i]), TrimSpace(s[i + 1..])))
  }

  function TrimDot(s: string): string {
    if s != "" && s[|s| - 1] == '.' then s[..|s| - 1] else s
  }

  function SanitizeHost(v: string): string {
    var h := TrimSpace(TrimDot(TrimSpace(v)));
    if h == "" || ContainsAny(h, " \t/\\@") || '.' !in h then "" else Lower(h)
  }

  /** The host a line names under a label, or "". */
  function Named(line: string, want: string): string {
    var f := SplitField(line);
    if f.Some? && Lower(f.value.0) == want then SanitizeHost(f.value.1) else ""
  }

  /** The first usable host under a label. */
  function FirstNamed(lines: seq<string>, want: string): string {
    if lines == [] then ""
    else
      var h := FirstNamed(lines[..|lines| - 1], want);
      if h != "" then h else Named(lines[|lines| - 1], want)
  }

  /** The first usable host under the most specific label that has one. */
  function BestNamed(lines: seq<string>, labels: seq<string>): string {
    if labels == [] then ""
    else if FirstNamed(lines, labels[0]) != "" then FirstNamed(lines, labels[0])
    else BestNamed(lines, labels[1..])
  }

  /** One pass over the lines fills a table by label, then the labels are tried in
      order of preference. */
  method ReferralHost(lines: seq<string>, labels: seq<string>) returns (host: string)
    ensures host == BestNamed(lines, labels)
  {
    var found: map<string, string> := map[];
    hide Named;
    for n := 0 to |lines|
      invariant forall want :: want in labels ==> Table(found, want) == FirstNamed(lines[..n], want)
    {
      assert lines[..n + 1][..n] == lines[..n];
      found := ReadLine(found, lines[n], labels);
    }
    assert lines[..|lines|] == lines;
    for k := 0 to |labels|
      invariant BestNamed(lines, labels) == BestNamed(lines, labels[k..])
    {
      var want := labels[k];
      assert labels[k..][0] == want && want in labels;
      if want in found && found[want] != "" {
        return found[want];
      }
    }
    return "";
  }

  /** A label already in the table keeps its host. */
  method ReadLine(found: map<string, string>, line: string, labels: seq<string>) returns (r: map<string, string>)
    ensures forall want :: want in labels ==>
              Table(r, want) == if Table(found, want) != "" then Table(found, want) else Named(line, want)
  {
    hide SplitField, Lower, SanitizeHost;
    r := found;
    var f := SplitField(line);
    if f.None? {
      return;
    }
    var name := Lower(f.value.0);
    for k := 0 to |labels|
      invariant forall want :: want in labels ==>
                  Table(r, want) == Table(found, want)
                  || (Table(found, want) == "" && Table(r, want) == Named(line, want))
      invariant forall want :: want in labels[..k] ==>
                  Table(r, want) == if Table(found, want) != "" then Table(found, want) else Named(line, want)
    {
      var want := labels[k];
      if name == want && Table(r, want) == "" {
        var h := SanitizeHost(f.value.1);
        if h != "" {
          r := r[want := h];
        }
      }
      assert labels[..k + 1] == labels[..k] + [want];
    }
    assert labels[..|labels|] == labels;
  }

  /** The table never holds an empty host, so absence and emptiness are the same. */
  function Table(found: map<string, string>, want: string): string {
    if want in found then found[want] else ""
  }

  function HostOnly(hostport: string): string {
    var i := LastIndexAfter(hostport, ':');
    if i > 1 && ']' !in hostport[i..] then hostport[..i - 1] else hostport
  }

  /** Where a reply sends us next, or "". */
  function Next(net: Net, resp: Response): string {
    if !net.referralsAllowed || resp.raw == "" then ""
    else
      var next := BestNamed(Split(resp.raw, '\n'), REFERRAL_LABELS);
      if next != "" && EqualFold(next, HostOnly(resp.host)) then "" else next
  }

  method NextHost(net: Net, resp: Response) returns (next: string)
    ensures next == Next(net, resp)
  {
    next := "";
    if net.referralsAllowed && |resp.raw| > 0 {
      next := ReferralHost(Split(resp.raw, '\n'), REFERRAL_LABELS);
      if next != "" && EqualFold(next, HostOnly(resp.host)) {
        next := "";
      }
    }
  }

  // ---- the chain

  /** One query made: whom it was sent to, what came back, and where that points. */
  datatype Visit = Visit(host: string, reply: Option<Response>, next: string)

  /** Every query made from the given hop on, in order. */
  function Visits(net: Net, hop: nat, host: string, seen: set<string>): seq<Visit>
    decreases net.cap - hop
  {
    if Lower(host) in seen then []
    else
      match net.reply(hop, host)
      case None => [Visit(host, None, "")]
      case Some(resp) =>
        var next := Next(net, resp);
        [Visit(host, Some(resp), next)]
        + (if next == "" || hop + 1 >= net.cap then [] else Visits(net, hop + 1, next, seen + {Lower(host)}))
  }

  /** The next query goes to exactly the host the reply before it referred to. */
  ghost predicate FollowsFrom(net: Net, v: Visit, w: Visit) {
    v.reply.Some? && v.next == Next(net, v.reply.value) != "" && w.host == v.next
  }

  /** Chain theorem. For any behaviour of the servers and any cap, the loop makes
      at most that many queries, never asks the same host twice, asks exactly the
      host the previous reply referred to, and goes on only after a reply. */
  lemma {:induction false} ChainIsBounded(net: Net, hop: nat, host: string, seen: set<string>)
    requires hop < net.cap
    ensures var vs := Visits(net, hop, host, seen);
            && |vs| <= net.cap - hop
            && (vs != [] ==> vs[0].host == host)
            && (forall i :: 0 <= i < |vs| ==> Lower(vs[i].host) !in seen)
            && (forall i, j :: 0 <= i < j < |vs| ==> Lower(vs[i].host) != Lower(vs[j].host))
            && (forall i :: 0 <= i < |vs| - 1 ==> FollowsFrom(net, vs[i], vs[i + 1]))
    decreases net.cap - hop
  {
    hide Next, Lower;
    var vs := Visits(net, hop, host, seen);
    if Lower(host) !in seen && net.reply(hop, host).Some? {
      var next := Next(net, net.reply(hop, host).value);
      if next != "" && hop + 1 < net.cap {
        ChainIsBounded(net, hop + 1, next, seen + {Lower(host)});
        var rest := Visits(net, hop + 1, next, seen + {Lower(host)});
        assert vs == [vs[0]] + rest;
        assert forall i :: 0 <= i < |rest| ==> Lower(rest[i].host) !in seen + {Lower(host)};
        forall i | 0 <= i < |vs| - 1
          ensures FollowsFrom(net, vs[i], vs[i + 1])
        {
          assert i > 0 ==> FollowsFrom(net, rest[i - 1], rest[i]);
        }
      }
    }
  }

  /** The chain goes on as long as it may: it ends only with a failed query, a reply
      that refers nobody on, a referral to a host asked before, or at the cap. */
  lemma {:induction false} WhyItEnds(net: Net, hop: nat, host: string, seen: set<string>)
    requires hop < net.cap && Lower(host) !in seen
    ensures Visits(net, hop, host, seen) != []
    ensures var vs := Visits(net, hop, host, seen); var last := vs[|vs| - 1];
            && vs[0] == Visit(host, net.reply(hop, host), vs[0].next)
            && (|vs| == net.cap - hop || last.reply.None? || last.next == "" || Lower(last.next) in seen
                || exists i :: 0 <= i < |vs| && Lower(last.next) == Lower(vs[i].host))
    decreases net.cap - hop
  {
    hide Next, Lower;
    var vs := Visits(net, hop, host, seen);
    if net.reply(hop, host).Some? {
      var next := Next(net, net.reply(hop, host).value);
      if next != "" && hop + 1 < net.cap && Lower(next) !in seen + {Lower(host)} {
        WhyItEnds(net, hop + 1, next, seen + {Lower(host)});
        var rest := Visits(net, hop + 1, next, seen + {Lower(host)});
        assert vs == [vs[0]] + rest;
        assert vs[|vs| - 1] == rest[|rest| - 1];
        if i :| 0 <= i < |rest| && Lower(rest[|rest| - 1].next) == Lower(rest[i].host) {
          assert vs[i + 1] == rest[i];
        }
      }
    }
  }

  function ExchangeOf(v: Visit): Exchange
    requires v.reply.Some?
  {
    var r := v.reply.value;
    Exchange(r.host, r.query, |r.raw|, r.truncated, v.next)
  }

  /** The last reply that said something. */
  function Final(vs: seq<Visit>): Option<Response> {
    if vs == [] then None
    else
      var r := vs[|vs| - 1].reply;
      if r.Some? && r.value.raw != "" then r else Final(vs[..|vs| - 1])
  }

  /** The recorded result is what the visits amount to. */
  ghost predicate Records(res: Lookup, vs: seq<Visit>) {
    && |res.chain| == |res.servers| <= |vs|
    && (forall i :: 0 <= i < |res.chain| ==>
          && vs[i].reply.Some? && res.servers[i] == vs[i].reply.value.host
          && var x, r := res.chain[i], vs[i].reply.value;
             && x.host == r.host && x.query == r.query && x.bytes == |r.raw| && x.truncated == r.truncated
             && x.referral == vs[i].next)
    && (forall i :: |res.chain| <= i < |vs| ==> vs[i].reply.None?)
    && res.raw == (if Final(vs).Some? then Final(vs).value.raw else "")
    && (Final(vs).Some? ==> res.truncated == Final(vs).value.truncated)
    && (Final(vs).None? ==> !res.truncated && (res.chain != [] ==> res.warnings != []))
    && NoData !in res.warnings
  }

  /** `first` is the quirk host or the discovered one, None if there is none. The
      lookup fails only if discovery or the first query does; otherwise it reports
      every hop made and the last answer with content, with that answer's own
      truncation flag. The warning about no data at all is never needed. */
  method Query(net: Net, first: Option<string>) returns (r: Result<Lookup, LookupError>)
    requires net.cap >= 1
    ensures first.None? <==> r == Err(NoHost)
    ensures first.Some? ==>
              var vs := Visits(net, 0, first.value, {});
              && vs != []
              && (vs[0].reply.None? <==> r == Err(FirstHopFailed(first.value)))
              && (vs[0].reply.Some? ==> r.Ok? && Records(r.value, vs))
  {
    hide Records, Visits, Lower;
    if first.None? {
      return Err(NoHost);
    }
    var host := first.value;
    var res := Lookup("", [], [], false, []);
    var seen: set<string> := {};
    var hop := 0;
    ghost var all := Visits(net, 0, host, {});
    ghost var done: seq<Visit> := [];
    NothingYet();
    while true
      invariant all == done + Visits(net, hop, host, seen)
      invariant |done| == hop < net.cap && |res.chain| == hop
      invariant Records(res, done)
      invariant if hop == 0 then host == first.value && seen == {} else done[0].reply.Some?
      decreases net.cap - hop
    {
      var step := OneHop(net, hop, host, seen, res, done);
      if step.FirstFailed? {
        return Err(FirstHopFailed(host));
      }
      res := step.res;
      if step.Stop? {
        break;
      }
      ghost var v := Visit(host, net.reply(hop, host), step.next);
      Regroup(done, v, Visits(net, hop + 1, step.next, seen + {Lower(host)}));
      done := done + [v];
      seen := seen + {Lower(host)};
      host := step.next;
      hop := hop + 1;
    }
    SomethingToSay(res, all);
    if |res.raw| == 0 && |res.warnings| == 0 {
      res := res.(warnings := res.warnings + [NoData]);
    }
    return Ok(res);
  }

  lemma Regroup(done: seq<Visit>, v: Visit, rest: seq<Visit>)
    ensures done + ([v] + rest) == done + [v] + rest
  {
  }

  datatype Step = FirstFailed | Stop(res: Lookup) | Go(res: Lookup, next: string)

  /** One turn of the loop: query a host not asked before, and decide whether the
      reply sends us on. */
  method OneHop(net: Net, hop: nat, host: string, seen: set<string>, was: Lookup, ghost done: seq<Visit>)
    returns (step: Step)
    requires hop < net.cap && |done| == |was.chain| == hop && Records(was, done) && (hop == 0 ==> seen == {})
    ensures var vs := Visits(net, hop, host, seen);
            match step
            case FirstFailed => hop == 0 && vs == [Visit(host, None, "")]
            case Stop(res) =>
              Records(res, done + vs) && (hop == 0 ==> vs != [] && vs[0].reply.Some?)
            case Go(res, next) =>
              var v := Visit(host, net.reply(hop, host), next);
              && v.reply.Some? && hop + 1 < net.cap
              && vs == [v] + Visits(net, hop + 1, next, seen + {Lower(host)})
              && Records(res, done + [v]) && |res.chain| == hop + 1
  {
    hide Records, Next;
    if Lower(host) in seen {
      Warned(was, done, ReferralLoop(host));
      assert done + [] == done;
      return Stop(was.(warnings := was.warnings + [ReferralLoop(host)]));
    }
    var reply := net.reply(hop, host);
    if reply.None? {
      if hop == 0 {
        return FirstFailed;
      }
      Unanswered(was, done, host);
      return Stop(was.(warnings := was.warnings + [ReferralFailed(host)]));
    }
    var res, next := Take(net, was, done, hop, host, reply.value);
    assert [Visit(host, reply, next)] + [] == [Visit(host, reply, next)];
    if next == "" {
      return Stop(res);
    }
    if hop + 1 >= net.cap {
      Warned(res, done + [Visit(host, reply, next)], NotFollowed(next));
      return Stop(res.(warnings := res.warnings + [NotFollowed(next)]));
    }
    return Go(res, next);
  }

  /** Records one reply: it replaces the answer only if it says something. */
  method Take(net: Net, was: Lookup, ghost done: seq<Visit>, hop: nat, host: string, resp: Response)
    returns (res: Lookup, next: string)
    requires Records(was, done) && |was.chain| == |done|
    ensures next == Next(net, resp)
    ensures Records(res, done + [Visit(host, Some(resp), next)]) && |res.chain| == |was.chain| + 1
  {
    res := was;
    if |resp.raw| > 0 {
      res := res.(raw := resp.raw, truncated := resp.truncated);
    } else if hop == 0 {
      res := res.(warnings := res.warnings + [EmptyResponse(resp.host)]);
    } else {
      res := res.(warnings := res.warnings + [EmptyReferral(resp.host)]);
    }
    next := NextHost(net, resp);
    res := res.(chain := res.chain + [Exchange(resp.host, resp.query, |resp.raw|, resp.truncated, next)],
                servers := res.servers + [resp.host]);
    Answered(was, res, done, Visit(host, Some(resp), next),
             if hop == 0 then EmptyResponse(resp.host) else EmptyReferral(resp.host));
  }

  lemma NothingYet()
    ensures Records(Lookup("", [], [], false, []), [])
  {
  }

  lemma Warned(res: Lookup, done: seq<Visit>, w: Warning)
    requires Records(res, done) && w != NoData
    ensures Records(res.(warnings := res.warnings + [w]), done)
  {
  }

  lemma SomethingToSay(res: Lookup, vs: seq<Visit>)
    requires Records(res, vs) && vs != [] && vs[0].reply.Some?
    ensures res.raw == "" ==> res.warnings != []
  {
    NonEmptyFinal(vs);
  }

  lemma {:induction false} NonEmptyFinal(vs: seq<Visit>)
    ensures Final(vs).Some? ==> Final(vs).value.raw != ""
  {
    if vs != [] {
      NonEmptyFinal(vs[..|vs| - 1]);
    }
  }

  lemma Unanswered(res: Lookup, done: seq<Visit>, host: string)
    requires Records(res, done) && |res.chain| == |done|
    ensures Records(res.(warnings := res.warnings + [ReferralFailed(host)]), done + [Visit(host, None, "")])
  {
    assert (done + [Visit(host, None, "")])[..|done|] == done;
  }

  lemma Answered(res: Lookup, res': Lookup, done: seq<Visit>, v: Visit, w: Warning)
    requires Records(res, done) && |res.chain| == |done| && v.reply.Some? && w != NoData
    requires var r := v.reply.value;
             && res'.chain == res.chain + [ExchangeOf(v)] && res'.servers == res.servers + [r.host]
             && (if r.raw != "" then res'.raw == r.raw && res'.truncated == r.truncated && res'.warnings == res.warnings
                 else res'.raw == res.raw && res'.truncated == res.truncated && res'.warnings == res.warnings + [w])
    ensures Records(res', done + [v])
  {
    assert (done + [v])[..|done|] == done;
  }

  // ---- what a line names

  /** A bare host name: something, with a dot, no white space, slash, backslash or
      at sign in it, and no dot at its end. */
  ghost predicate IsHost(h: string) {
    && h != "" && '.' in h && h[|h| - 1] != '.' && Trimmed(h)
    && forall c :: c in h ==> c != ' ' && c != '\t' && c != '/' && c != '\\' && c != '@'
  }

  /** A host is taken over in lower case, with or without white space around it and
      a dot at its end. */
  lemma {:induction false} HostIsTaken(a: string, h: string, dot: bool, b: string)
    requires IsHost(h) && AllSpace(a) && AllSpace(b)
    ensures SanitizeHost(a + (h + if dot then "." else "") + b) == Lower(h)
  {
    hide TrimSpace, Lower, IsSpace;
    var t := h + if dot then "." else "";
    DotEnds(h, dot);
    TrimSpaceIs(a, t, b);
    assert dot ==> t[..|t| - 1] == h;
    assert !dot ==> t == h;
    TrimSpaceIs("", h, "");
    assert "" + h + "" == h;
    ForbiddenChars(h);
  }

  lemma DotEnds(h: string, dot: bool)
    requires h != "" && Trimmed(h)
    ensures Trimmed(h + if dot then "." else "")
  {
  }

  lemma ForbiddenChars(h: string)
    ensures ContainsAny(h, " \t/\\@") <==>
              exists c :: c in h && (c == ' ' || c == '\t' || c == '/' || c == '\\' || c == '@')
  {
    assert forall c :: c in " \t/\\@" <==> c == ' ' || c == '\t' || c == '/' || c == '\\' || c == '@';
  }

  /** Whatever else it is, what is taken over is free of what a host may not hold. */
  lemma {:induction false} OnlyHostsAreTaken(v: string)
    ensures var r := SanitizeHost(v);
            r != "" ==>
              && (exists i :: 0 <= i < |r| && r[i] == '.')
              && forall i :: 0 <= i < |r| ==> r[i] !in {' ', '\t', '/', '\\', '@'} && !('A' <= r[i] <= 'Z')
  {
    hide TrimSpace;
    var h := TrimSpace(TrimDot(TrimSpace(v)));
    ForbiddenChars(h);
    LowerIs(h);
    forall i | 0 <= i < |h|
      ensures h[i] in h
    {
    }
    if '.' in h {
      var k :| 0 <= k < |h| && h[k] == '.';
      assert Lower(h)[k] == '.';
    }
  }

  /** A line with a colon has what stands before the first one as its name and what
      stands after it as its value, both trimmed, unless it is a comment or has
      nothing before the colon; a line without a colon has neither. */
  lemma {:induction false} FieldOfLine(pre: string, v: string)
    requires ':' !in pre
    ensures var name := TrimSpace(pre);
            SplitField(pre + ":" + v) ==
            if name == "" || name[0] == '%' || name[0] == '#' then None else Some((name, TrimSpace(v)))
  {
    hide TrimSpace, TrimCR, IndexOf, AllSpace;
    TrimCRFirst(pre + ":" + v);
    var b, tail := TrimmedAround(pre, ':', v);
    var name := TrimSpace(pre);
    var before := name + b;
    var t := before + ":" + tail;
    assert t[|before|] == ':' && t[..|before|] == before && t[|before| + 1..] == tail;
    FirstIndex(t, ':', |before|);
    assert name != "" ==> t[0] == name[0];
  }

  lemma {:induction false} NoField(line: string)
    requires ':' !in line
    ensures SplitField(line) == None
  {
    hide TrimSpace, TrimCR, IndexOf;
    TrimCRFirst(line);
    var a, b := TrimSplits(line);
    var t := TrimSpace(line);
    assert forall c :: c in t ==> c in line;
    assert t[..|t|] == t;
    FirstIndex(t, ':', |t|);
  }

  /** A label, whatever its case, with a host after it names that host. */
  lemma {:induction false} LineNames(pre: string, want: string, a: string, h: string, dot: bool, b: string)
    requires ':' !in pre && TrimSpace(pre) != "" && TrimSpace(pre)[0] != '%' && TrimSpace(pre)[0] != '#'
    requires IsHost(h) && AllSpace(a) && AllSpace(b)
    ensures Named(pre + ":" + (a + (h + if dot then "." else "") + b), want)
            == if Lower(TrimSpace(pre)) == want then Lower(h) else ""
  {
    hide TrimSpace, Lower, SanitizeHost, IsHost, SplitField, AllSpace;
    var v := a + (h + if dot then "." else "") + b;
    FieldOfLine(pre, v);
    HostTrims(a, h, dot, b);
    HostIsTaken("", h, dot, "");
    assert "" + (h + if dot then "." else "") + "" == h + if dot then "." else "";
  }

  lemma HostTrims(a: string, h: string, dot: bool, b: string)
    requires IsHost(h) && AllSpace(a) && AllSpace(b)
    ensures TrimSpace(a + (h + if dot then "." else "") + b) == h + if dot then "." else ""
    ensures AllSpace("")
  {
    hide TrimSpace, IsSpace;
    DotEnds(h, dot);
    TrimSpaceIs(a, h + if dot then "." else "", b);
  }

  // ---- which host is followed

  lemma {:induction false} FirstNamedExactly(lines: seq<string>, want: string)
    ensures (FirstNamed(lines, want) == "" <==> forall i :: 0 <= i < |lines| ==> Named(lines[i], want) == "")
    ensures FirstNamed(lines, want) != "" ==>
              exists i :: 0 <= i < |lines| && Named(lines[i], want) == FirstNamed(lines, want)
                          && forall j :: 0 <= j < i ==> Named(lines[j], want) == ""
  {
    hide Named;
    if lines != [] {
      var n := |lines| - 1;
      FirstNamedExactly(lines[..n], want);
      assert lines == lines[..n] + [lines[n]];
      assert forall i :: 0 <= i < n ==> lines[..n][i] == lines[i];
    }
  }

  /** Line i names the host under label k; no line before it names one under that
      label, and no line at all under a label preferred to it. */
  ghost predicate NamesFirst(lines: seq<string>, labels: seq<string>, k: nat, i: nat, h: string) {
    && k < |labels| && i < |lines| && Named(lines[i], labels[k]) == h
    && (forall j :: 0 <= j < i ==> Named(lines[j], labels[k]) == "")
    && (forall l, j :: 0 <= l < k && 0 <= j < |lines| ==> Named(lines[j], labels[l]) == "")
  }

  /** The referral is the first host named under the first label in the order of
      preference that any line names one under; there is none exactly when no line
      names any. */
  lemma {:induction false} ReferralExactly(lines: seq<string>, labels: seq<string>)
    ensures BestNamed(lines, labels) == "" <==>
              forall k, i :: 0 <= k < |labels| && 0 <= i < |lines| ==> Named(lines[i], labels[k]) == ""
    ensures BestNamed(lines, labels) != "" ==> exists k, i :: NamesFirst(lines, labels, k, i, BestNamed(lines, labels))
  {
    hide Named, FirstNamed, NamesFirst;
    if labels != [] {
      var want, rest := labels[0], labels[1..];
      FirstNamedExactly(lines, want);
      ReferralExactly(lines, rest);
      assert forall k :: 0 <= k < |labels| ==> labels[k] == if k == 0 then want else rest[k - 1];
      if FirstNamed(lines, want) == "" && BestNamed(lines, rest) != "" {
        var k, i :| NamesFirst(lines, rest, k, i, BestNamed(lines, rest));
        OneLabelMore(lines, labels, k, i, BestNamed(lines, rest));
      } else if FirstNamed(lines, want) != "" {
        var i :| 0 <= i < |lines| && Named(lines[i], want) == FirstNamed(lines, want)
                 && forall j :: 0 <= j < i ==> Named(lines[j], want) == "";
        FirstLabel(lines, labels, i);
      }
    }
  }

  lemma OneLabelMore(lines: seq<string>, labels: seq<string>, k: nat, i: nat, h: string)
    requires labels != [] && NamesFirst(lines, labels[1..], k, i, h)
    requires forall j :: 0 <= j < |lines| ==> Named(lines[j], labels[0]) == ""
    ensures NamesFirst(lines, labels, k + 1, i, h)
  {
    hide Named;
    assert forall l :: 0 < l < |labels| ==> labels[l] == labels[1..][l - 1];
  }

  lemma FirstLabel(lines: seq<string>, labels: seq<string>, i: nat)
    requires labels != [] && i < |lines| && forall j :: 0 <= j < i ==> Named(lines[j], labels[0]) == ""
    ensures NamesFirst(lines, labels, 0, i, Named(lines[i], labels[0]))
  {
    hide Named;
  }

  /** The port is cut off, and only a port. */
  lemma {:induction false} HostWithoutPort(h: string, port: string)
    ensures ':' !in h ==> HostOnly(h) == h
    ensures h != "" && ':' !in port && ']' !in port ==> HostOnly(h + ":" + port) == h
    ensures h != "" && ':' !in port && ']' in port ==> HostOnly(h + ":" + port) == h + ":" + port
  {
    assert h[0..] == h;
    if ':' !in h {
      LastIndexIs(h, ':', 0);
    }
    var s := h + ":" + port;
    assert s[|h| + 1..] == port && s[|h|] == ':' && s[..|h|] == h;
    if ':' !in port {
      LastIndexIs(s, ':', |h| + 1);
    }
  }

  lemma {:induction false} LastIndexIs(s: string, c: char, i: nat)
    requires i <= |s| && c !in s[i..] && (i > 0 ==> s[i - 1] == c)
    ensures LastIndexAfter(s, c) == i
  {
  }

  /** A reply of lines sends us on to the most preferred host one of them names,
      unless that is the server that replied; registries that allow no referrals
      send nobody anywhere. */
  lemma {:induction false} NextExactly(net: Net, resp: Response, lines: seq<string>)
    requires lines != [] && (forall l :: l in lines ==> '\n' !in l) && resp.raw == Join(lines, '\n')
    ensures Next(net, resp) ==
            if !net.referralsAllowed || resp.raw == "" then ""
            else
              var best := BestNamed(lines, ["registrar whois server", "whois server", "refer", "whois"]);
              if Lower(best) == Lower(HostOnly(resp.host)) then "" else best
  {
    hide BestNamed, Lower, HostOnly, Split, Join;
    JoinSplits(lines, '\n');
    EmptyLower();
  }

  lemma EmptyLower()
    ensures Lower("") == ""
  {
  }
}
