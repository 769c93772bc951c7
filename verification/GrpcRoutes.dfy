/** Translating GRPCRoute matches to HTTP matches (pkg/krtcollections/grpc_route.go), against
    the meaning the Gateway API gives both (GRPCMethodMatch and HTTPPathMatch). */
module GrpcRoutes {
  import opened Common
  import opened Text

  datatype MatchType = Exact | RegularExpression

  datatype GRPCMethodMatch = GRPCMethodMatch(matchType: Option<MatchType>, service: Option<string>,
                                             method_: Option<string>)

  datatype GRPCHeaderMatch = GRPCHeaderMatch(name: string, value: string, matchType: Option<MatchType>)

  datatype GRPCRouteMatch = GRPCRouteMatch(method_: Option<GRPCMethodMatch>, headers: seq<GRPCHeaderMatch>)

  datatype PathType = ExactPath | PathPrefix | RegexPath | UnsetPath

  datatype HTTPPathMatch = HTTPPathMatch(pathType: PathType, value: string)

  datatype HTTPHeaderMatch = HTTPHeaderMatch(name: string, value: string, matchType: Option<MatchType>)

  datatype HTTPRouteMatch = HTTPRouteMatch(path: HTTPPathMatch, headers: seq<HTTPHeaderMatch>)

  // ---- The translation

  function BuildGRPCPathMatch(m: Option<GRPCMethodMatch>): HTTPPathMatch {
    if m.None? then HTTPPathMatch(PathPrefix, "/")
    else
      var service, method_ := m.value.service, m.value.method_;
      if m.value.matchType == Some(RegularExpression) then
        HTTPPathMatch(RegexPath,
                      if service.Some? && method_.Some? then "/" + service.value + "/" + method_.value
                      else if service.Some? then "/" + service.value + "/.+"
                      else if method_.Some? then "/.+/" + method_.value
                      else "")
      else if service.Some? && method_.Some? then HTTPPathMatch(ExactPath, "/" + service.value + "/" + method_.value)
      else if service.Some? then HTTPPathMatch(PathPrefix, "/" + service.value)
      else if method_.Some? then HTTPPathMatch(RegexPath, "/.+/" + method_.value)
      else HTTPPathMatch(UnsetPath, "")
  }

  function HeaderToHTTP(h: GRPCHeaderMatch): HTTPHeaderMatch { HTTPHeaderMatch(h.name, h.value, h.matchType) }

  method ConvertGRPCHeadersToHTTP(headers: seq<GRPCHeaderMatch>) returns (http: seq<HTTPHeaderMatch>)
    ensures |http| == |headers| && forall i :: 0 <= i < |headers| ==> http[i] == HeaderToHTTP(headers[i])
  {
    http := [];
    for i := 0 to |headers|
      invariant |http| == i && forall j :: 0 <= j < i ==> http[j] == HeaderToHTTP(headers[j])
    {
      http := http + [HeaderToHTTP(headers[i])];
    }
  }

  ghost predicate Translates(m: GRPCRouteMatch, http: HTTPRouteMatch) {
    && http.path == BuildGRPCPathMatch(m.method_)
    && |http.headers| == |m.headers| && forall i :: 0 <= i < |m.headers| ==>
      http.headers[i] == HeaderToHTTP(m.headers[i])
  }

  method ConvertGRPCMatchesToHTTP(matches: seq<GRPCRouteMatch>) returns (http: seq<HTTPRouteMatch>)
    ensures |http| == |matches| && forall i :: 0 <= i < |matches| ==> Translates(matches[i], http[i])
  {
    http := [];
    for i := 0 to |matches|
      invariant |http| == i && forall j :: 0 <= j < i ==> Translates(matches[j], http[j])
    {
      var headers := ConvertGRPCHeadersToHTTP(matches[i].headers);
      http := http + [HTTPRouteMatch(BuildGRPCPathMatch(matches[i].method_), headers)];
    }
  }

  // ---- Regular expressions: literals, `.`, a trailing `+` on either, and top-level `|`

  /** One atom: a literal character, or None for any character but a newline. */
  datatype Atom = Atom(literal: Option<char>, plus: bool)

  predicate Takes(a: Atom, c: char) { if a.literal.Some? then c == a.literal.value else c != '\n' }

  function One(c: char, plus: bool): Atom { Atom(if c == '.' then None else Some(c), plus) }

  function Parse(pattern: string): seq<Atom>
    decreases |pattern|
  {
    if pattern == [] then []
    else if |pattern| > 1 && pattern[1] == '+' then [One(pattern[0], true)] + Parse(pattern[2..])
    else [One(pattern[0], false)] + Parse(pattern[1..])
  }

  predicate FullMatch(atoms: seq<Atom>, s: string)
    decreases |s|, |atoms|
  {
    if atoms == [] then s == []
    else
      && s != [] && Takes(atoms[0], s[0])
      && (FullMatch(atoms[1..], s[1..]) || (atoms[0].plus && FullMatch(atoms, s[1..])))
  }

  /** The alternatives between the bars. */
  function Alternatives(pattern: string): (alts: seq<string>)
    ensures |alts| > 0
  {
    if pattern == [] then [[]]
    else
      var rest := Alternatives(pattern[1..]);
      if pattern[0] == '|' then [[]] + rest else [[pattern[0]] + rest[0]] + rest[1..]
  }

  /** Some alternative matches the whole string. */
  predicate RegexMatches(pattern: string, s: string)
  { exists alt :: alt in Alternatives(pattern) && FullMatch(Parse(alt), s) }

  /** Every `+` follows something it can repeat. */
  predicate PlusesRepeat(pattern: string, before: char)
    decreases |pattern|
  {
    pattern != [] ==> (pattern[0] == '+' ==> before != '+' && before != '|') && PlusesRepeat(pattern[1..], pattern[0])
  }

  /** Other operators are not modelled. */
  predicate InFragment(pattern: string) {
    (forall c :: c in pattern ==> c !in "\\*?()[]{}^$") && PlusesRepeat(pattern, '|')
  }

  predicate NoMeta(pattern: string) { InFragment(pattern) && '.' !in pattern && '+' !in pattern && '|' !in pattern }

  // ---- What a match accepts

  /** The path of a gRPC request. */
  function Path(service: string, method_: string): string { "/" + service + "/" + method_ }

  predicate ValidRequest(service: string, method_: string) {
    service != "" && method_ != "" && SlashFree(service) && SlashFree(method_) && '\n' !in service && '\n' !in method_
  }

  predicate Part(matchType: Option<MatchType>, want: Option<string>, got: string) {
    want.None? || (if matchType == Some(RegularExpression) then RegexMatches(want.value, got) else want.value == got)
  }

  predicate GrpcAccepts(m: Option<GRPCMethodMatch>, service: string, method_: string) {
    m.None? || (Part(m.value.matchType, m.value.service, service) && Part(m.value.matchType, m.value.method_, method_))
  }

  function TrimSlash(s: string): string { if s != [] && s[|s| - 1] == '/' then s[..|s| - 1] else s }

  /** Element by element: a trailing slash of the prefix does not count. */
  predicate ElementPrefix(prefix: string, path: string) {
    var p := TrimSlash(prefix);
    path == p || p + "/" <= path
  }

  predicate HttpAccepts(m: HTTPPathMatch, path: string) {
    match m.pathType
    case ExactPath => path == m.value
    case PathPrefix => ElementPrefix(m.value, path)
    case RegexPath => RegexMatches(m.value, path)
    case UnsetPath => false
  }

  // ---- Regular expression facts

  lemma {:induction false} MatchConcat(a: seq<Atom>, b: seq<Atom>, s: string)
    ensures FullMatch(a + b, s) <==> exists k :: 0 <= k <= |s| && FullMatch(a, s[..k]) && FullMatch(b, s[k..])
    decreases |s|, |a|
  {
    if a == [] {
      assert a + b == b && s[..0] == [] && s[0..] == s;
      assert FullMatch(a, s[..0]);
    } else if s == [] {
    } else if Takes(a[0], s[0]) {
      var t := s[1..];
      assert (a + b)[1..] == a[1..] + b;
      MatchConcat(a[1..], b, t);
      if a[0].plus { MatchConcat(a, b, t); }
      forall k | 0 <= k <= |t| ensures s[..k + 1][1..] == t[..k] && s[k + 1..] == t[k..] {}
      if FullMatch(a + b, s) {
        if FullMatch(a[1..] + b, t) {
          var k :| 0 <= k <= |t| && FullMatch(a[1..], t[..k]) && FullMatch(b, t[k..]);
          assert FullMatch(a, s[..k + 1]);
        } else {
          var k :| 0 <= k <= |t| && FullMatch(a, t[..k]) && FullMatch(b, t[k..]);
          assert FullMatch(a, s[..k + 1]);
        }
      }
      if k :| 0 <= k <= |s| && FullMatch(a, s[..k]) && FullMatch(b, s[k..]) {
        assert k > 0;
        assert s[..k][1..] == t[..k - 1] && s[k..] == t[k - 1..];
      }
    } else {
      forall k | 0 <= k <= |s| ensures !FullMatch(a, s[..k]) {}
    }
  }

  lemma {:induction false} OneAlternative(pattern: string)
    requires '|' !in pattern
    ensures Alternatives(pattern) == [pattern]
    decreases |pattern|
  {
    if pattern != [] {
      OneAlternative(pattern[1..]);
      assert [pattern[0]] + pattern[1..] == pattern;
    }
  }

  lemma WithoutBars(pattern: string, s: string)
    requires '|' !in pattern
    ensures RegexMatches(pattern, s) <==> FullMatch(Parse(pattern), s)
  {
    OneAlternative(pattern);
    assert pattern in [pattern];
  }

  lemma {:induction false} ParseConcat(p: string, q: string)
    requires q == [] || q[0] != '+'
    ensures Parse(p + q) == Parse(p) + Parse(q)
    decreases |p|
  {
    if p == [] {
      assert p + q == q;
    } else if |p| > 1 && p[1] == '+' {
      assert (p + q)[2..] == p[2..] + q;
      ParseConcat(p[2..], q);
    } else {
      assert (p + q)[1..] == p[1..] + q;
      ParseConcat(p[1..], q);
    }
  }

  const SLASH := Atom(Some('/'), false)

  lemma ParseSlash()
    ensures Parse("/") == [SLASH]
  {
    assert Parse("/"[1..]) == [];
  }

  lemma ParsePath(service: string, method_: string)
    requires service != [] ==> service[0] != '+'
    requires method_ != [] ==> method_[0] != '+'
    ensures Parse("/" + service + "/" + method_) == [SLASH] + (Parse(service) + ([SLASH] + Parse(method_)))
  {
    ParseSlash();
    assert "/" + service + "/" + method_ == "/" + (service + ("/" + method_));
    ParseConcat("/", method_);
    ParseConcat(service, "/" + method_);
    ParseConcat("/", service + ("/" + method_));
  }

  lemma LiteralFirst(c: char, b: seq<Atom>, s: string)
    ensures FullMatch([Atom(Some(c), false)] + b, s) <==> s != [] && s[0] == c && FullMatch(b, s[1..])
  {
    assert ([Atom(Some(c), false)] + b)[1..] == b;
  }

  lemma OnlySlash(service: string, method_: string, k: nat)
    requires SlashFree(service) && SlashFree(method_) && k < |service + "/" + method_|
    ensures (service + "/" + method_)[k] == '/' <==> k == |service|
  {
    var w := service + "/" + method_;
    if k < |service| { assert w[k] == service[k]; }
    if k > |service| { assert w[k] == method_[k - |service| - 1]; }
  }

  /** A pattern around a literal slash matches a request path part by part: the path has only
      the one slash to give it, whatever the other atoms could take. */
  lemma PartByPart(a: seq<Atom>, b: seq<Atom>, service: string, method_: string)
    requires SlashFree(service) && SlashFree(method_)
    ensures FullMatch([SLASH] + (a + ([SLASH] + b)), Path(service, method_)) <==>
            FullMatch(a, service) && FullMatch(b, method_)
  {
    var w := service + "/" + method_;
    var rest := [SLASH] + b;
    LiteralFirst('/', a + rest, Path(service, method_));
    assert Path(service, method_)[1..] == w;
    MatchConcat(a, rest, w);
    assert w[..|service|] == service && w[|service|..][1..] == method_;
    forall k | 0 <= k <= |w| ensures FullMatch(rest, w[k..]) <==> k == |service| && FullMatch(b, method_) {
      LiteralFirst('/', b, w[k..]);
      if k < |w| { OnlySlash(service, method_, k); }
    }
  }

  lemma {:induction false} AnyText(s: string)
    ensures FullMatch([Atom(None, true)], s) <==> s != [] && '\n' !in s
    decreases |s|
  {
    if s != [] {
      AnyText(s[1..]);
      assert [Atom(None, true)][1..] == [];
      assert s == [s[0]] + s[1..];
    }
  }

  lemma ParseAny()
    ensures Parse(".+") == [Atom(None, true)]
  {
    assert Parse(".+"[2..]) == [];
  }

  lemma {:induction false} LiteralMatches(p: string, s: string)
    requires '.' !in p && '+' !in p
    ensures FullMatch(Parse(p), s) <==> s == p
    decreases |p|
  {
    if p != [] {
      assert |p| > 1 ==> p[1] in p;
      assert p[0] in p;
      LiteralFirst(p[0], Parse(p[1..]), s);
      if s != [] {
        LiteralMatches(p[1..], s[1..]);
        assert p == [p[0]] + p[1..] && s == [s[0]] + s[1..];
      }
    }
  }

  // ---- Exact matches

  lemma TwoParts(a: string, b: string, service: string, method_: string)
    requires SlashFree(service) && SlashFree(method_)
    ensures "/" + a + "/" + b == Path(service, method_) <==> a == service && b == method_
  {
    if "/" + a + "/" + b == Path(service, method_) {
      var w := service + "/" + method_;
      assert w == a + "/" + b by { assert ("/" + a + "/" + b)[1..] == a + "/" + b && Path(service, method_)[1..] == w; }
      assert w[|a|] == '/';
      OnlySlash(service, method_, |a|);
      assert a == w[..|a|] && service == w[..|a|];
      assert b == w[|a| + 1..] && method_ == w[|a| + 1..];
    }
  }

  /** A single slash, strictly inside. */
  predicate OneInnerSlash(s: string)
  { exists i :: 0 < i < |s| - 1 && s[i] == '/' && SlashFree(s[..i]) && SlashFree(s[i + 1..]) }

  /** Service names whose prefix match takes in requests to another service: empty, one path
      element with a trailing slash, or two path elements. */
  predicate Misleading(service: string) {
    var t := TrimSlash(service);
    service == "" || ('\n' !in t && ((service != t && t != "" && SlashFree(t)) || OneInnerSlash(t)))
  }

  lemma PrefixOfPath(service: string, s: string, m: string)
    requires service != ""
    ensures var t := TrimSlash(service); ElementPrefix("/" + service, Path(s, m)) <==>
            s + "/" + m == t || t + "/" <= s + "/" + m
  {
    var t, w := TrimSlash(service), s + "/" + m;
    assert TrimSlash("/" + service) == "/" + t;
    assert Path(s, m) == "/" + w;
    assert "/" + w == "/" + t <==> w == t by { assert ("/" + w)[1..] == w && ("/" + t)[1..] == t; }
    assert "/" + t + "/" == "/" + (t + "/");
    assert "/" + (t + "/") <= "/" + w <==> t + "/" <= w by {
      assert ("/" + w)[1..] == w && ("/" + (t + "/"))[1..] == t + "/";
      if "/" + (t + "/") <= "/" + w {
        assert forall i :: 0 <= i < |t + "/"| ==> (t + "/")[i] == ("/" + w)[i + 1] == w[i];
      }
    }
  }

  lemma PrefixTakesElement(t: string, s: string, m: string)
    requires SlashFree(s) && SlashFree(m)
    ensures t + "/" <= s + "/" + m <==> t == s
  {
    var w := s + "/" + m;
    if t + "/" <= w {
      assert w[|t|] == '/';
      OnlySlash(s, m, |t|);
      assert t == w[..|t|] && s == w[..|s|];
    }
    assert s + "/" <= w;
  }

  /** The prefix match of a service-only rule, in full. */
  lemma ServicePrefix(service: string, s: string, m: string)
    requires ValidRequest(s, m)
    ensures ElementPrefix("/" + service, Path(s, m)) <==> service == "" || TrimSlash(service) == s
                                                          || TrimSlash(service) == s + "/" + m
  {
    if service == "" {
      assert TrimSlash("/" + service) == "";
      assert "" + "/" <= Path(s, m);
    } else {
      PrefixOfPath(service, s, m);
      PrefixTakesElement(TrimSlash(service), s, m);
    }
  }

  /** A service-only exact rule accepts what the gRPC match accepts exactly when the service
      name is not misleading. */
  lemma ServiceOnlyIff(service: string)
    ensures (forall s, m :: ValidRequest(s, m) ==> (ElementPrefix("/" + service, Path(s, m)) <==> service == s)) <==>
            !Misleading(service)
  {
    if Misleading(service) {
      var s, m := MisledRequest(service);
      ServicePrefix(service, s, m);
    } else {
      forall s, m | ValidRequest(s, m) ensures ElementPrefix("/" + service, Path(s, m)) <==> service == s {
        NotMisled(service, s, m);
      }
    }
  }

  lemma NotMisled(service: string, s: string, m: string)
    requires ValidRequest(s, m) && !Misleading(service)
    ensures ElementPrefix("/" + service, Path(s, m)) <==> service == s
  {
    ServicePrefix(service, s, m);
    var w := s + "/" + m;
    assert w[..|s|] == s && w[|s| + 1..] == m && w[|s|] == '/';
    assert OneInnerSlash(w);
  }

  lemma MisledRequest(service: string) returns (s: string, m: string)
    requires Misleading(service)
    ensures ValidRequest(s, m) && service != s
    ensures service == "" || TrimSlash(service) == s || TrimSlash(service) == s + "/" + m
  {
    var t := TrimSlash(service);
    s, m := "a", "b";
    if service != "" {
      if service != t && t != "" && SlashFree(t) {
        s := t;
      } else {
        var i :| 0 < i < |t| - 1 && t[i] == '/' && SlashFree(t[..i]) && SlashFree(t[i + 1..]);
        s, m := t[..i], t[i + 1..];
        assert t == s + "/" + m;
        assert service[i] == '/';
      }
    }
  }

  /** The pattern a method-only rule is given. */
  lemma MethodPattern(p: string, s: string, m: string)
    requires ValidRequest(s, m) && '|' !in p && (p != [] ==> p[0] != '+')
    ensures RegexMatches("/.+/" + p, Path(s, m)) <==> FullMatch(Parse(p), m)
  {
    assert "/.+/" + p == "/" + ".+" + "/" + p;
    WithoutBars("/.+/" + p, Path(s, m));
    ParsePath(".+", p);
    ParseAny();
    PartByPart(Parse(".+"), Parse(p), s, m);
    AnyText(s);
  }

  lemma MethodOnly(p: string, s: string, m: string)
    requires ValidRequest(s, m) && NoMeta(p)
    ensures RegexMatches("/.+/" + p, Path(s, m)) <==> p == m
  {
    MethodPattern(p, s, m);
    LiteralMatches(p, m);
  }

  /** Each atom once. */
  function Shortest(atoms: seq<Atom>): string {
    if atoms == [] then [] else [if atoms[0].literal.Some? then atoms[0].literal.value else 'x'] + Shortest(atoms[1..])
  }

  lemma {:induction false} ShortestMatches(atoms: seq<Atom>)
    ensures FullMatch(atoms, Shortest(atoms)) && |Shortest(atoms)| == |atoms|
    decreases |atoms|
  {
    if atoms != [] {
      ShortestMatches(atoms[1..]);
      assert Shortest(atoms)[1..] == Shortest(atoms[1..]);
    }
  }

  lemma {:induction false} ShortestChars(p: string)
    ensures forall c :: c in Shortest(Parse(p)) ==> c == 'x' || (c in p && c != '.')
    decreases |p|
  {
    if p != [] {
      var n := if |p| > 1 && p[1] == '+' then 2 else 1;
      ShortestChars(p[n..]);
      assert Parse(p)[1..] == Parse(p[n..]);
      forall c | c in Shortest(Parse(p)) ensures c == 'x' || (c in p && c != '.') {
        if c in Shortest(Parse(p[n..])) && c != 'x' { assert c in p[n..]; }
      }
    }
  }

  lemma {:induction false} PlusShortens(p: string)
    ensures |Parse(p)| <= |p| && (p != [] ==> Parse(p) != [])
    ensures '+' in p && p[0] != '+' ==> |Parse(p)| < |p|
    decreases |p|
  {
    if p != [] {
      PlusShortens(p[if |p| > 1 && p[1] == '+' then 2 else 1..]);
      assert p == [p[0]] + p[1..];
    }
  }

  /** Up to the first bar, and after it. */
  lemma FirstBar(p: string) returns (u: string, v: string)
    requires '|' in p
    ensures p == u + "|" + v && '|' !in u
    decreases |p|
  {
    if p[0] == '|' {
      u, v := "", p[1..];
    } else {
      assert p == [p[0]] + p[1..];
      u, v := FirstBar(p[1..]);
      u := [p[0]] + u;
    }
  }

  lemma {:induction false} AlternativesBar(p: string, q: string)
    requires '|' !in p
    ensures Alternatives(p + "|" + q) == [p] + Alternatives(q)
    decreases |p|
  {
    var all := p + "|" + q;
    if p == [] {
      assert all[1..] == q;
    } else {
      assert all[1..] == p[1..] + "|" + q;
      AlternativesBar(p[1..], q);
      assert [p[0]] + p[1..] == p;
    }
  }

  lemma {:induction false} AlternativesPrefix(p: string, q: string)
    requires '|' !in p
    ensures Alternatives(p + q) == [p + Alternatives(q)[0]] + Alternatives(q)[1..]
    decreases |p|
  {
    if p == [] {
      assert p + q == q && p + Alternatives(q)[0] == Alternatives(q)[0];
    } else {
      assert (p + q)[1..] == p[1..] + q;
      AlternativesPrefix(p[1..], q);
      assert [p[0]] + (p[1..] + Alternatives(q)[0]) == p + Alternatives(q)[0];
    }
  }

  lemma {:induction false} AlternativesHoldNoBar(p: string)
    ensures forall alt :: alt in Alternatives(p) ==> '|' !in alt
    decreases |p|
  {
    if p != [] { AlternativesHoldNoBar(p[1..]); }
  }

  lemma {:induction false} ParseHoldsNoBar(p: string)
    requires '|' !in p
    ensures forall a :: a in Parse(p) ==> a.literal != Some('|')
    decreases |p|
  {
    if p != [] {
      assert p[0] in p;
      ParseHoldsNoBar(p[if |p| > 1 && p[1] == '+' then 2 else 1..]);
    }
  }

  /** Only a `.` can take a bar, and it takes any other character as well. */
  lemma {:induction false} SwapBar(atoms: seq<Atom>, s: string, k: nat)
    requires forall a :: a in atoms ==> a.literal != Some('|')
    requires FullMatch(atoms, s) && k < |s| && s[k] == '|'
    ensures FullMatch(atoms, s[k := 'x'])
    decreases |s|
  {
    var t := s[k := 'x'];
    assert atoms[0] in atoms && Takes(atoms[0], t[0]);
    if k == 0 {
      assert t[1..] == s[1..];
    } else {
      assert t[1..] == s[1..][k - 1 := 'x'];
      if FullMatch(atoms[1..], s[1..]) {
        SwapBar(atoms[1..], s[1..], k - 1);
      } else {
        SwapBar(atoms, s[1..], k - 1);
      }
    }
  }

  /** An operator other than the bar lets in a method that the exact match refuses. */
  lemma OperatorMisleads(p: string) returns (m: string)
    requires InFragment(p) && '|' !in p && SlashFree(p) && '\n' !in p && !NoMeta(p)
    ensures ValidRequest("a", m) && p != m && FullMatch(Parse(p), m)
  {
    m := Shortest(Parse(p));
    ShortestMatches(Parse(p));
    ShortestChars(p);
    PlusShortens(p);
  }

  /** The first alternative is a method of its own, other than the method with the bar. */
  lemma FirstAlternativeMisleads(u: string, v: string) returns (m: string)
    requires u != "" && '|' !in u && u[0] != '+' && SlashFree(u) && '\n' !in u
    ensures ValidRequest("a", m) && m != u + "|" + v && RegexMatches("/.+/" + (u + "|" + v), Path("a", m))
  {
    m := Shortest(Parse(u));
    ShortestMatches(Parse(u));
    ShortestChars(u);
    PlusShortens(u);
    assert '|' in u + "|" + v && '|' !in m;
    MethodPattern(u, "a", m);
    WithoutBars("/.+/" + u, Path("a", m));
    assert "/.+/" + (u + "|" + v) == ("/.+/" + u) + "|" + v;
    AlternativesBar("/.+/" + u, v);
    assert ("/.+/" + u) in Alternatives("/.+/" + (u + "|" + v));
  }

  lemma EmptyEndRefuses(m: string)
    requires ValidRequest("a", m)
    ensures !FullMatch(Parse("/.+/"), Path("a", m))
  {
    MethodPattern("", "a", m);
    WithoutBars("/.+/" + "", Path("a", m));
    assert "/.+/" + "" == "/.+/";
  }

  /** An alternative that takes the bar at the head of the method takes another letter there. */
  lemma BarTaken(alt: string, v: string)
    requires '|' !in alt && FullMatch(Parse(alt), Path("a", "|" + v))
    ensures FullMatch(Parse(alt), Path("a", "x" + v))
  {
    ParseHoldsNoBar(alt);
    SwapBar(Parse(alt), Path("a", "|" + v), 3);
    assert Path("a", "|" + v)[3 := 'x'] == Path("a", "x" + v);
  }

  /** With nothing before the bar, the method itself is refused, or the bar was taken by a `.`. */
  lemma EmptyAlternativeMisleads(v: string) returns (m: string)
    requires SlashFree(v) && '\n' !in v
    ensures ValidRequest("a", m) && (RegexMatches("/.+/" + ("|" + v), Path("a", m)) <==> m != "|" + v)
  {
    var p := "|" + v;
    m := p;
    if RegexMatches("/.+/" + p, Path("a", p)) {
      assert "/.+/" + p == "/.+/" + "|" + v;
      AlternativesBar("/.+/", v);
      EmptyEndRefuses(p);
      var alt :| alt in Alternatives("/.+/" + p) && FullMatch(Parse(alt), Path("a", p));
      assert alt in Alternatives(v);
      AlternativesHoldNoBar(v);
      BarTaken(alt, v);
      m := "x" + v;
      assert m[0] != p[0];
    }
  }

  /** A method-only exact rule agrees with the gRPC match exactly when the method holds no
      operator: an operator lets in a method that the exact match refuses, or refuses the method
      itself. */
  lemma MethodOnlyIff(p: string)
    requires InFragment(p) && SlashFree(p) && '\n' !in p
    ensures (forall s, m :: ValidRequest(s, m) ==> (RegexMatches("/.+/" + p, Path(s, m)) <==> p == m)) <==> NoMeta(p)
  {
    if NoMeta(p) {
      forall s, m | ValidRequest(s, m) ensures RegexMatches("/.+/" + p, Path(s, m)) <==> p == m { MethodOnly(p, s, m); }
    } else if '|' !in p {
      var m := OperatorMisleads(p);
      MethodPattern(p, "a", m);
    } else {
      var u, v := FirstBar(p);
      if u != "" {
        assert u[0] == p[0];
        var m := FirstAlternativeMisleads(u, v);
      } else {
        assert p == "|" + v;
        var m := EmptyAlternativeMisleads(v);
      }
    }
  }

  // ---- The translation keeps the meaning

  /** What the translation needs of a match. A rule must name a service or a method, as the API
      requires; the rest is what the two lemmas above show to be exact, and, for regular
      expressions, that neither part has a bar. */
  ghost predicate Translatable(m: GRPCMethodMatch) {
    && (m.service.Some? || m.method_.Some?)
    && if m.matchType == Some(RegularExpression) then Joinable(m.service) && Joinable(m.method_)
       else (m.method_.None? ==> !Misleading(m.service.value)) && (m.service.None? ==> NoMeta(m.method_.value))
  }

  ghost predicate Joinable(p: Option<string>) { p.Some? ==> InFragment(p.value) && '|' !in p.value }

  lemma ExactAgrees(m: GRPCMethodMatch, s: string, method_: string)
    requires m.matchType != Some(RegularExpression) && Translatable(m) && ValidRequest(s, method_)
    ensures HttpAccepts(BuildGRPCPathMatch(Some(m)), Path(s, method_)) <==> GrpcAccepts(Some(m), s, method_)
  {
    if m.service.Some? && m.method_.Some? {
      TwoParts(m.service.value, m.method_.value, s, method_);
    } else if m.service.Some? {
      NotMisled(m.service.value, s, method_);
    } else {
      MethodOnly(m.method_.value, s, method_);
    }
  }

  lemma JoinedPatterns(p: string, q: string, s: string, m: string)
    requires InFragment(p) && InFragment(q) && '|' !in p && '|' !in q && ValidRequest(s, m)
    ensures RegexMatches("/" + p + "/" + q, Path(s, m)) <==> RegexMatches(p, s) && RegexMatches(q, m)
  {
    WithoutBars("/" + p + "/" + q, Path(s, m));
    WithoutBars(p, s);
    WithoutBars(q, m);
    ParsePath(p, q);
    PartByPart(Parse(p), Parse(q), s, m);
  }

  lemma AnyMatches(s: string)
    requires s != "" && '\n' !in s
    ensures RegexMatches(".+", s)
  {
    WithoutBars(".+", s);
    ParseAny();
    AnyText(s);
  }

  lemma RegexAgrees(m: GRPCMethodMatch, s: string, method_: string)
    requires m.matchType == Some(RegularExpression) && Translatable(m) && ValidRequest(s, method_)
    ensures HttpAccepts(BuildGRPCPathMatch(Some(m)), Path(s, method_)) <==> GrpcAccepts(Some(m), s, method_)
  {
    AnyMatches(s);
    AnyMatches(method_);
    if m.service.Some? && m.method_.Some? {
      JoinedPatterns(m.service.value, m.method_.value, s, method_);
    } else if m.service.Some? {
      assert "/" + m.service.value + "/.+" == "/" + m.service.value + "/" + ".+";
      JoinedPatterns(m.service.value, ".+", s, method_);
    } else {
      assert "/.+/" + m.method_.value == "/" + ".+" + "/" + m.method_.value;
      JoinedPatterns(".+", m.method_.value, s, method_);
    }
  }

  // ---- Bars in regular expressions

  /** A literal alternative that names a service or a method. */
  predicate Name(s: string) { NoMeta(s) && s != "" && SlashFree(s) && '\n' !in s }

  predicate Names(ss: seq<string>) { ss != [] && forall i :: 0 <= i < |ss| ==> Name(ss[i]) }

  predicate AllEqual(ss: seq<string>) { forall i :: 0 <= i < |ss| ==> ss[i] == ss[0] }

  function Bars(ss: seq<string>): string
    requires ss != []
  {
    if |ss| == 1 then ss[0] else ss[0] + "|" + Bars(ss[1..])
  }

  lemma {:induction false} AlternativesOfBars(ss: seq<string>)
    requires Names(ss)
    ensures Alternatives(Bars(ss)) == ss
    decreases |ss|
  {
    if |ss| == 1 {
      OneAlternative(ss[0]);
    } else {
      AlternativesOfBars(ss[1..]);
      AlternativesBar(ss[0], Bars(ss[1..]));
    }
  }

  lemma BarsMatch(ss: seq<string>, s: string)
    requires Names(ss)
    ensures RegexMatches(Bars(ss), s) <==> s in ss
  {
    AlternativesOfBars(ss);
    forall alt | alt in ss ensures FullMatch(Parse(alt), s) <==> s == alt { LiteralMatches(alt, s); }
  }

  /** Begins with a literal that is not a slash, so matches no path. */
  predicate NameStart(alt: string) { alt != "" && alt[0] != '/' && alt[0] != '.' }

  lemma NameStartRefuses(alt: string, path: string)
    requires NameStart(alt) && path != "" && path[0] == '/'
    ensures !FullMatch(Parse(alt), path)
  {
    assert Parse(alt)[0].literal == Some(alt[0]);
  }

  lemma OnlyFirst(pattern: string, path: string)
    requires path != "" && path[0] == '/'
    requires forall i :: 1 <= i < |Alternatives(pattern)| ==> NameStart(Alternatives(pattern)[i])
    ensures RegexMatches(pattern, path) <==> FullMatch(Parse(Alternatives(pattern)[0]), path)
  {
    var alts := Alternatives(pattern);
    forall i | 1 <= i < |alts| ensures !FullMatch(Parse(alts[i]), path) { NameStartRefuses(alts[i], path); }
  }

  /** What follows the first alternative of a joined pattern. */
  lemma {:induction false} LaterAlternatives(ss: seq<string>, t: string)
    requires Names(ss) && forall i :: 1 <= i < |Alternatives(t)| ==> NameStart(Alternatives(t)[i])
    ensures forall i :: 0 <= i < |Alternatives(Bars(ss) + "/" + t)| ==> NameStart(Alternatives(Bars(ss) + "/" + t)[i])
    decreases |ss|
  {
    if |ss| == 1 {
      AlternativesPrefix(ss[0] + "/", t);
    } else {
      LaterAlternatives(ss[1..], t);
      assert Bars(ss) + "/" + t == ss[0] + "|" + (Bars(ss[1..]) + "/" + t);
      AlternativesBar(ss[0], Bars(ss[1..]) + "/" + t);
    }
  }

  /** A bar in the service ends the pattern's first alternative there. */
  lemma FirstAlternative(ss: seq<string>, t: string)
    requires Names(ss) && forall i :: 1 <= i < |Alternatives(t)| ==> NameStart(Alternatives(t)[i])
    ensures var alts := Alternatives("/" + Bars(ss) + "/" + t);
            && alts[0] == (if |ss| == 1 then "/" + ss[0] + "/" + Alternatives(t)[0] else "/" + ss[0])
            && forall i :: 1 <= i < |alts| ==> NameStart(alts[i])
  {
    if |ss| == 1 {
      AlternativesPrefix("/" + ss[0] + "/", t);
    } else {
      var rest := Bars(ss[1..]) + "/" + t;
      LaterAlternatives(ss[1..], t);
      assert "/" + Bars(ss) + "/" + t == ("/" + ss[0]) + "|" + rest;
      AlternativesBar("/" + ss[0], rest);
    }
  }

  lemma OneSlashRefuses(service: string, s: string, m: string)
    requires Name(service) && ValidRequest(s, m)
    ensures !FullMatch(Parse("/" + service), Path(s, m))
  {
    LiteralMatches("/" + service, Path(s, m));
    assert Path(s, m)[|s| + 1] == '/';
    assert |service| > |s| ==> ("/" + service)[|s| + 1] == service[|s|];
  }

  /** What the pattern of services and methods accepts. */
  lemma BothAccept(ss: seq<string>, ms: seq<string>, s: string, m: string)
    requires Names(ss) && Names(ms) && ValidRequest(s, m)
    ensures RegexMatches("/" + Bars(ss) + "/" + Bars(ms), Path(s, m)) <==> |ss| == 1 && s == ss[0] && m == ms[0]
  {
    AlternativesOfBars(ms);
    FirstAlternative(ss, Bars(ms));
    OnlyFirst("/" + Bars(ss) + "/" + Bars(ms), Path(s, m));
    if |ss| == 1 {
      LiteralMatches("/" + ss[0] + "/" + ms[0], Path(s, m));
      TwoParts(ss[0], ms[0], s, m);
    } else {
      OneSlashRefuses(ss[0], s, m);
    }
  }

  lemma ServiceAccepts(ss: seq<string>, s: string, m: string)
    requires Names(ss) && ValidRequest(s, m)
    ensures RegexMatches("/" + Bars(ss) + "/.+", Path(s, m)) <==> |ss| == 1 && s == ss[0]
  {
    assert "/" + Bars(ss) + "/.+" == "/" + Bars(ss) + "/" + ".+";
    OneAlternative(".+");
    FirstAlternative(ss, ".+");
    OnlyFirst("/" + Bars(ss) + "/.+", Path(s, m));
    if |ss| == 1 {
      ParsePath(ss[0], ".+");
      PartByPart(Parse(ss[0]), Parse(".+"), s, m);
      ParseAny();
      AnyText(m);
      LiteralMatches(ss[0], s);
    } else {
      OneSlashRefuses(ss[0], s, m);
    }
  }

  lemma MethodAccepts(ms: seq<string>, s: string, m: string)
    requires Names(ms) && ValidRequest(s, m)
    ensures RegexMatches("/.+/" + Bars(ms), Path(s, m)) <==> m == ms[0]
  {
    AlternativesOfBars(ms);
    AlternativesPrefix("/.+/", Bars(ms));
    OnlyFirst("/.+/" + Bars(ms), Path(s, m));
    MethodOnly(ms[0], s, m);
    WithoutBars("/.+/" + ms[0], Path(s, m));
  }

  ghost predicate AgreesOn(m: GRPCMethodMatch, s: string, method_: string) {
    HttpAccepts(BuildGRPCPathMatch(Some(m)), Path(s, method_)) <==> GrpcAccepts(Some(m), s, method_)
  }

  /** The translated rule accepts exactly what the rule accepts, for every request. */
  ghost predicate Agrees(m: GRPCMethodMatch) {
    forall s, method_ :: ValidRequest(s, method_) ==> AgreesOn(m, s, method_)
  }

  function RegexRule(service: Option<string>, method_: Option<string>): GRPCMethodMatch {
    GRPCMethodMatch(Some(RegularExpression), service, method_)
  }

  lemma BothRule(ss: seq<string>, ms: seq<string>, s: string, m: string)
    requires Names(ss) && Names(ms) && ValidRequest(s, m)
    ensures var r := RegexRule(Some(Bars(ss)), Some(Bars(ms)));
            && (HttpAccepts(BuildGRPCPathMatch(Some(r)), Path(s, m)) <==> |ss| == 1 && s == ss[0] && m == ms[0])
            && (GrpcAccepts(Some(r), s, m) <==> s in ss && m in ms)
            && (AgreesOn(r, s, m) <==> (s in ss && m in ms ==> |ss| == 1 && m == ms[0]))
  {
    BothAccept(ss, ms, s, m);
    BarsMatch(ss, s);
    BarsMatch(ms, m);
    assert s == ss[0] ==> s in ss;
    assert m == ms[0] ==> m in ms;
    assert |ss| == 1 ==> (s in ss <==> s == ss[0]);
  }

  /** Alternatives of names: with both parts, the rule keeps its meaning exactly when there is
      one service and the alternatives of the method are one method. */
  lemma BarsInBothIff(ss: seq<string>, ms: seq<string>)
    requires Names(ss) && Names(ms)
    ensures Agrees(RegexRule(Some(Bars(ss)), Some(Bars(ms)))) <==> |ss| == 1 && AllEqual(ms)
  {
    var r := RegexRule(Some(Bars(ss)), Some(Bars(ms)));
    forall s, m | ValidRequest(s, m) ensures AgreesOn(r, s, m) <==> (s in ss && m in ms ==> |ss| == 1 && m == ms[0]) {
      BothRule(ss, ms, s, m);
    }
    if !AllEqual(ms) {
      var i :| 0 <= i < |ms| && ms[i] != ms[0];
      assert ValidRequest(ss[0], ms[i]) && ms[i] in ms;
    }
    assert ValidRequest(ss[0], ms[0]);
  }

  lemma ServiceRule(ss: seq<string>, s: string, m: string)
    requires Names(ss) && ValidRequest(s, m)
    ensures AgreesOn(RegexRule(Some(Bars(ss)), None), s, m) <==> (s in ss ==> |ss| == 1)
  {
    ServiceAccepts(ss, s, m);
    BarsMatch(ss, s);
    assert s == ss[0] ==> s in ss;
    assert |ss| == 1 ==> (s in ss <==> s == ss[0]);
  }

  /** With a service alone, exactly when there is one. */
  lemma BarsInServiceIff(ss: seq<string>)
    requires Names(ss)
    ensures Agrees(RegexRule(Some(Bars(ss)), None)) <==> |ss| == 1
  {
    var r := RegexRule(Some(Bars(ss)), None);
    forall s, m | ValidRequest(s, m) ensures AgreesOn(r, s, m) <==> (s in ss ==> |ss| == 1) { ServiceRule(ss, s, m); }
    assert ValidRequest(ss[0], ss[0]);
  }

  lemma MethodRule(ms: seq<string>, s: string, m: string)
    requires Names(ms) && ValidRequest(s, m)
    ensures AgreesOn(RegexRule(None, Some(Bars(ms))), s, m) <==> (m in ms ==> m == ms[0])
  {
    MethodAccepts(ms, s, m);
    BarsMatch(ms, m);
    assert m == ms[0] ==> m in ms;
  }

  /** With a method alone, exactly when the alternatives are one method. */
  lemma BarsInMethodIff(ms: seq<string>)
    requires Names(ms)
    ensures Agrees(RegexRule(None, Some(Bars(ms)))) <==> AllEqual(ms)
  {
    var r := RegexRule(None, Some(Bars(ms)));
    forall s, m | ValidRequest(s, m) ensures AgreesOn(r, s, m) <==> (m in ms ==> m == ms[0]) { MethodRule(ms, s, m); }
    if !AllEqual(ms) {
      var i :| 0 <= i < |ms| && ms[i] != ms[0];
      assert ValidRequest(ms[i], ms[i]) && ms[i] in ms;
    }
  }

  /** An instance: the pattern for service a|b and method m refuses both services. */
  lemma BarEscapes(a: string, b: string, m: string)
    requires Name(a) && Name(b) && Name(m)
    ensures var r := RegexRule(Some(a + "|" + b), Some(m));
            && GrpcAccepts(Some(r), a, m) && !HttpAccepts(BuildGRPCPathMatch(Some(r)), Path(a, m))
            && GrpcAccepts(Some(r), b, m) && !HttpAccepts(BuildGRPCPathMatch(Some(r)), Path(b, m))
  {
    var ss, ms := [a, b], [m];
    assert Bars(ss) == a + "|" + b by { assert ss[1..] == [b]; }
    BothRule(ss, ms, a, m);
    BothRule(ss, ms, b, m);
  }

  /** Whatever the two parts accept, as languages: joined with slashes they accept a request
      path exactly when each accepts its part. */
  lemma AnyLanguages(services: string -> bool, methods: string -> bool, s: string, m: string)
    requires ValidRequest(s, m)
    ensures (exists u, v :: services(u) && methods(v) && "/" + u + "/" + v == Path(s, m)) <==> services(s) && methods(m)
  {
    forall u, v ensures "/" + u + "/" + v == Path(s, m) <==> u == s && v == m { TwoParts(u, v, s, m); }
  }

  // ---- Whole match lists

  datatype Request = Request(service: string, method_: string, headers: map<string, string>)

  predicate HeaderAccepts(name: string, value: string, matchType: Option<MatchType>, headers: map<string, string>) {
    name in headers && if matchType == Some(RegularExpression) then RegexMatches(value, headers[name])
      else headers[name] == value
  }

  predicate GrpcMatchAccepts(m: GRPCRouteMatch, r: Request) {
    GrpcAccepts(m.method_, r.service, r.method_)
    && forall i :: 0 <= i < |m.headers| ==>
      HeaderAccepts(m.headers[i].name, m.headers[i].value, m.headers[i].matchType, r.headers)
  }

  predicate HttpMatchAccepts(m: HTTPRouteMatch, r: Request) {
    HttpAccepts(m.path, Path(r.service, r.method_))
    && forall i :: 0 <= i < |m.headers| ==>
      HeaderAccepts(m.headers[i].name, m.headers[i].value, m.headers[i].matchType, r.headers)
  }

  lemma MatchAgrees(m: GRPCRouteMatch, http: HTTPRouteMatch, r: Request)
    requires Translates(m, http) && ValidRequest(r.service, r.method_)
             && (m.method_.Some? ==> Translatable(m.method_.value))
    ensures HttpMatchAccepts(http, r) <==> GrpcMatchAccepts(m, r)
  {
    if m.method_.None? {
      assert TrimSlash("/") == "";
      assert "" + "/" <= Path(r.service, r.method_);
    } else if m.method_.value.matchType == Some(RegularExpression) {
      RegexAgrees(m.method_.value, r.service, r.method_);
    } else {
      ExactAgrees(m.method_.value, r.service, r.method_);
    }
    forall i | 0 <= i < |m.headers| ensures http.headers[i] == HeaderToHTTP(m.headers[i]) {}
  }

  /** A converted match list accepts a request exactly when the gRPC list does, match by match. */
  lemma ListAgrees(matches: seq<GRPCRouteMatch>, http: seq<HTTPRouteMatch>, r: Request)
    requires |http| == |matches| && forall i :: 0 <= i < |matches| ==> Translates(matches[i], http[i])
    requires forall i :: 0 <= i < |matches| && matches[i].method_.Some? ==> Translatable(matches[i].method_.value)
    requires ValidRequest(r.service, r.method_)
    ensures forall i :: 0 <= i < |matches| ==> (HttpMatchAccepts(http[i], r) <==> GrpcMatchAccepts(matches[i], r))
    ensures (exists i :: 0 <= i < |http| && HttpMatchAccepts(http[i], r)) <==>
            (exists i :: 0 <= i < |matches| && GrpcMatchAccepts(matches[i], r))
  {
    forall i | 0 <= i < |matches| ensures HttpMatchAccepts(http[i], r) <==> GrpcMatchAccepts(matches[i], r) {
      MatchAgrees(matches[i], http[i], r);
    }
  }
}
