/** Namespaces as paths, the patterns that grant them, and the decision built on both. */
module Namespaces {
  import opened Wrappers

  const MAX_NAMESPACE_BYTES: nat := 255

  /** The pieces between slashes; an empty text has one empty piece. */
  function Split(text: string): (pieces: seq<string>)
    ensures |pieces| >= 1
  {
    if text == "" then [""]
    else
      var before, c := Split(text[..|text| - 1]), text[|text| - 1];
      if c == '/' then before + [""] else Lengthened(before, c)
  }

  function Lengthened(pieces: seq<string>, c: char): seq<string>
    requires |pieces| >= 1
  {
    pieces[..|pieces| - 1] + [pieces[|pieces| - 1] + [c]]
  }

  function Join(pieces: seq<string>): string
    requires |pieces| >= 1
  {
    if |pieces| == 1 then pieces[0] else Join(pieces[..|pieces| - 1]) + "/" + pieces[|pieces| - 1]
  }

  predicate NamespaceChar(c: char) {
    '0' <= c <= '9' || 'a' <= c <= 'z' || 'A' <= c <= 'Z' || c in "-_./"
  }

  predicate ValidComponent(component: string) {
    component != "" && component != "." && component != ".."
  }

  predicate ValidChars(value: string) {
    forall i :: 0 <= i < |value| ==> NamespaceChar(value[i])
  }

  predicate ValidComponents(components: seq<string>) {
    forall i :: 0 <= i < |components| ==> ValidComponent(components[i])
  }

  predicate ValidNamespace(value: string) {
    0 < |value| <= MAX_NAMESPACE_BYTES && ValidChars(value) && ValidComponents(Split(value))
  }

  predicate EndsWithWildcard(pattern: string) {
    |pattern| >= 2 && pattern[|pattern| - 2] == '/' && pattern[|pattern| - 1] == '*'
  }

  predicate MatchesNamespace(pattern: string, namespace: string) {
    || pattern == "*"
    || pattern == namespace
    || (EndsWithWildcard(pattern) &&
        var prefix := pattern[..|pattern| - 2];
        prefix <= namespace && |prefix| < |namespace| && namespace[|prefix|] == '/')
  }

  // ------------------------------------------------------------ splitting and joining

  lemma SplitSnoc(text: string, c: char)
    ensures Split(text + [c]) == if c == '/' then Split(text) + [""] else Lengthened(Split(text), c)
  {
    assert (text + [c])[..|text|] == text;
  }

  lemma SplitOne(c: char)
    requires c != '/'
    ensures Split([c]) == [[c]]
  {
    SplitSnoc("", c);
    assert "" + [c] == [c];
  }

  lemma JoinSlash(pieces: seq<string>)
    requires |pieces| >= 1
    ensures Join(pieces + [""]) == Join(pieces) + "/"
  {
    assert (pieces + [""])[..|pieces|] == pieces;
    assert Join(pieces) + "/" + "" == Join(pieces) + "/";
  }

  lemma JoinSnoc(pieces: seq<string>, last: string)
    requires |pieces| >= 1
    ensures Join(pieces + [last]) == Join(pieces) + "/" + last
  {
    assert (pieces + [last])[..|pieces|] == pieces;
  }

  lemma JoinLonger(init: seq<string>, last: string, c: char)
    requires |init| >= 1
    ensures Join(init + [last + [c]]) == Join(init + [last]) + [c]
  {
    hide Join;
    JoinSnoc(init, last);
    JoinSnoc(init, last + [c]);
    var head := Join(init) + "/";
    Regroup(head, last, c);
  }

  lemma Regroup(a: string, b: string, c: char)
    ensures a + (b + [c]) == (a + b) + [c]
  {
  }

  lemma JoinLengthened(pieces: seq<string>, c: char)
    requires |pieces| >= 1
    ensures Join(Lengthened(pieces, c)) == Join(pieces) + [c]
  {
    if |pieces| > 1 {
      JoinLongerLast(pieces, c);
    }
  }

  lemma JoinLongerLast(pieces: seq<string>, c: char)
    requires |pieces| > 1
    ensures Join(Lengthened(pieces, c)) == Join(pieces) + [c]
  {
    hide Join;
    var init, last := pieces[..|pieces| - 1], pieces[|pieces| - 1];
    assert pieces == init + [last];
    JoinLonger(init, last, c);
  }

  lemma {:induction false} JoinSplit(text: string)
    ensures Join(Split(text)) == text
  {
    if text != "" {
      var init, c := text[..|text| - 1], text[|text| - 1];
      assert text == init + [c];
      JoinSplit(init);
      SplitSnoc(init, c);
      if c == '/' {
        JoinSlash(Split(init));
      } else {
        JoinLengthened(Split(init), c);
      }
    }
  }

  /** Splitting at a slash splits the list of pieces there. */
  lemma {:induction false} SplitAtSlash(left: string, right: string)
    ensures Split(left + "/" + right) == Split(left) + Split(right)
  {
    if right == "" {
      SplitSnoc(left, '/');
      assert left + "/" + right == left + ['/'];
      assert Split(right) == [""];
    } else {
      hide Split;
      var init, c := right[..|right| - 1], right[|right| - 1];
      SplitAtSlash(left, init);
      assert left + "/" + right == (left + "/" + init) + [c] && right == init + [c];
      SplitSnoc(left + "/" + init, c);
      SplitSnoc(init, c);
      LengthenedConcat(Split(left), Split(init), c);
    }
  }

  lemma LengthenedConcat(a: seq<string>, b: seq<string>, c: char)
    requires |b| >= 1
    ensures Lengthened(a + b, c) == a + Lengthened(b, c) && (a + b) + [""] == a + (b + [""])
  {
    assert (a + b)[..|a + b| - 1] == a + b[..|b| - 1];
  }

  lemma {:induction false} JoinConcat(a: seq<string>, b: seq<string>)
    requires |a| >= 1 && |b| >= 1
    ensures Join(a + b) == Join(a) + "/" + Join(b)
  {
    assert (a + b)[..|a + b| - 1] == a + b[..|b| - 1];
    if |b| == 1 {
      assert a + b[..0] == a;
    } else {
      JoinConcat(a, b[..|b| - 1]);
    }
  }

  /** A text without slashes is one piece. */
  lemma {:induction false} SplitPlain(text: string)
    ensures '/' !in text <==> Split(text) == [text]
  {
    if text != "" {
      var init, c := text[..|text| - 1], text[|text| - 1];
      assert text == init + [c];
      SplitPlain(init);
      SplitSnoc(init, c);
      if c != '/' && |Split(init)| == 1 {
        JoinSplit(init);
        assert Split(init) == [init];
      }
    }
  }

  /** Joined pieces without slashes split back into themselves. */
  lemma {:induction false} SplitJoin(pieces: seq<string>)
    requires |pieces| >= 1 && forall i :: 0 <= i < |pieces| ==> '/' !in pieces[i]
    ensures Split(Join(pieces)) == pieces
  {
    var last := pieces[|pieces| - 1];
    SplitPlain(last);
    if |pieces| > 1 {
      var init := pieces[..|pieces| - 1];
      SplitJoin(init);
      SplitAtSlash(Join(init), last);
    } else {
      assert pieces == [last];
    }
  }

  lemma SplitInjective(a: string, b: string)
    requires Split(a) == Split(b)
    ensures a == b
  {
    JoinSplit(a);
    JoinSplit(b);
  }

  /** A text starts with a prefix and a slash exactly when its pieces properly extend the
      prefix's pieces. */
  lemma StartsIsExtends(prefix: string, text: string)
    ensures (prefix <= text && |prefix| < |text| && text[|prefix|] == '/') <==> Split(prefix) < Split(text)
  {
    hide Split, Join;
    if prefix <= text && |prefix| < |text| && text[|prefix|] == '/' {
      var rest := text[|prefix| + 1..];
      assert text == prefix + "/" + rest;
      SplitAtSlash(prefix, rest);
    }
    if Split(prefix) < Split(text) {
      var more := Split(text)[|Split(prefix)|..];
      assert Split(text) == Split(prefix) + more;
      JoinConcat(Split(prefix), more);
      JoinSplit(prefix);
      JoinSplit(text);
      assert text == prefix + "/" + Join(more);
    }
  }

  // ------------------------------------------------------------- what patterns mean

  /** The meaning of a pattern on components: everything, one namespace, or all below one. */
  predicate Covers(pattern: seq<string>, components: seq<string>) {
    || pattern == ["*"]
    || pattern == components
    || (|pattern| >= 2 && pattern[|pattern| - 1] == "*" && pattern[..|pattern| - 1] < components)
  }

  lemma WildcardSplits(pattern: string)
    ensures EndsWithWildcard(pattern) <==> |Split(pattern)| >= 2 && Split(pattern)[|Split(pattern)| - 1] == "*"
    ensures EndsWithWildcard(pattern) ==> Split(pattern) == Split(pattern[..|pattern| - 2]) + ["*"]
  {
    SplitOne('*');
    if EndsWithWildcard(pattern) {
      var prefix := pattern[..|pattern| - 2];
      assert pattern == prefix + "/" + "*";
      SplitAtSlash(prefix, "*");
    }
    if |Split(pattern)| >= 2 && Split(pattern)[|Split(pattern)| - 1] == "*" {
      var pieces := Split(pattern);
      JoinSplit(pattern);
      assert pattern == Join(pieces[..|pieces| - 1]) + "/" + "*";
    }
  }

  /** For every pattern and every text, matching text is covering components. */
  lemma MatchIsCover(pattern: string, namespace: string)
    ensures MatchesNamespace(pattern, namespace) <==> Covers(Split(pattern), Split(namespace))
  {
    hide Split, EndsWithWildcard;
    SplitOne('*');
    if Split(pattern) == ["*"] {
      SplitInjective(pattern, "*");
    }
    if Split(pattern) == Split(namespace) {
      SplitInjective(pattern, namespace);
    }
    WildcardSplits(pattern);
    if EndsWithWildcard(pattern) {
      WildcardLength(pattern);
      var prefix := pattern[..|pattern| - 2];
      StartsIsExtends(prefix, namespace);
      assert Split(pattern)[..|Split(pattern)| - 1] == Split(prefix);
    }
  }

  lemma WildcardLength(pattern: string)
    requires EndsWithWildcard(pattern)
    ensures |pattern| >= 2
  {
  }

  predicate Comparable(a: seq<string>, b: seq<string>) {
    a <= b || b <= a
  }

  lemma NoStar(namespace: string)
    requires ValidNamespace(namespace)
    ensures '*' !in namespace
  {
  }

  /** A prefix p with a wildcard below it grants exactly the namespaces whose components properly extend p's. */
  lemma PatternGrantsDescendants(p: string, namespace: string)
    requires ValidNamespace(p) && ValidNamespace(namespace)
    ensures MatchesNamespace(p + "/*", namespace) <==> Split(p) < Split(namespace)
  {
    NoStar(namespace);
    var pattern := p + "/*";
    assert pattern[|pattern| - 1] == '*' && pattern[..|pattern| - 2] == p;
    assert '*' in pattern && pattern != "*";
    hide Split;
    StartsIsExtends(p, namespace);
  }

  /** Two such patterns grant a namespace in common exactly when one prefix's components
      begin the other's (given room to go one level deeper than both). */
  lemma CommonGrantIffComparable(p: string, q: string)
    requires ValidNamespace(p) && ValidNamespace(q) && |p| + 2 <= MAX_NAMESPACE_BYTES && |q| + 2 <= MAX_NAMESPACE_BYTES
    ensures (exists n :: ValidNamespace(n) && MatchesNamespace(p + "/*", n) && MatchesNamespace(q + "/*", n)) <==>
            Comparable(Split(p), Split(q))
  {
    hide Split, MatchesNamespace, ValidNamespace;
    forall n | ValidNamespace(n) && MatchesNamespace(p + "/*", n) && MatchesNamespace(q + "/*", n)
      ensures Comparable(Split(p), Split(q))
    {
      PatternGrantsDescendants(p, n);
      PatternGrantsDescendants(q, n);
      BothPrefixes(Split(p), Split(q), Split(n));
    }
    if Comparable(Split(p), Split(q)) {
      var longer := if Split(p) <= Split(q) then q else p;
      Deeper(longer);
      PatternGrantsDescendants(p, longer + "/x");
      PatternGrantsDescendants(q, longer + "/x");
    }
  }

  lemma BothPrefixes(a: seq<string>, b: seq<string>, whole: seq<string>)
    requires a <= whole && b <= whole
    ensures Comparable(a, b)
  {
    if |a| <= |b| {
      assert a == whole[..|b|][..|a|] == b[..|a|];
    } else {
      assert b == whole[..|a|][..|b|] == a[..|b|];
    }
  }

  lemma Deeper(p: string)
    requires ValidNamespace(p) && |p| + 2 <= MAX_NAMESPACE_BYTES
    ensures ValidNamespace(p + "/x") && Split(p) < Split(p + "/x")
  {
    hide Split, ValidChars, ValidComponents;
    assert p + "/x" == p + "/" + "x";
    SplitAtSlash(p, "x");
    SplitOne('x');
    ComponentsSnoc(Split(p), "x");
    CharsDeeper(p);
  }

  lemma ComponentsSnoc(components: seq<string>, last: string)
    requires ValidComponents(components) && ValidComponent(last)
    ensures ValidComponents(components + [last])
  {
    hide ValidComponent;
  }

  lemma CharsDeeper(p: string)
    requires ValidChars(p)
    ensures ValidChars(p + "/x")
  {
    assert NamespaceChar('/') && NamespaceChar('x');
    hide NamespaceChar;
  }

  /** Prefixes that branch apart never grant the same namespace. */
  lemma IncomparablePatternsAreDisjoint(p: string, q: string, namespace: string)
    requires ValidNamespace(p) && ValidNamespace(q) && ValidNamespace(namespace) && !Comparable(Split(p), Split(q))
    ensures !(MatchesNamespace(p + "/*", namespace) && MatchesNamespace(q + "/*", namespace))
  {
    hide Split, MatchesNamespace, ValidNamespace;
    PatternGrantsDescendants(p, namespace);
    PatternGrantsDescendants(q, namespace);
    if Split(p) < Split(namespace) && Split(q) < Split(namespace) {
      BothPrefixes(Split(p), Split(q), Split(namespace));
    }
  }

  // --------------------------------------------------------------- path resolution

  /** Lexical resolution: empty and `.` pieces vanish, `..` removes the piece before it. */
  function Resolve(pieces: seq<string>): (resolved: seq<string>)
    ensures |resolved| <= |pieces|
  {
    if pieces == [] then []
    else
      var before, last := Resolve(pieces[..|pieces| - 1]), pieces[|pieces| - 1];
      if last == "" || last == "." then before
      else if last == ".." then before[..if before == [] then 0 else |before| - 1]
      else before + [last]
  }

  /** The component rule accepts exactly the paths that are their own lexical resolution. */
  lemma {:induction false} ComponentsAreResolved(pieces: seq<string>)
    ensures ValidComponents(pieces) <==> Resolve(pieces) == pieces
  {
    if pieces != [] {
      var init, last := pieces[..|pieces| - 1], pieces[|pieces| - 1];
      ComponentsAreResolved(init);
      assert pieces == init + [last];
      if Resolve(pieces) == pieces {
        assert |Resolve(init)| == |init|;
        assert Resolve(pieces)[..|init|] == Resolve(init);
        assert Resolve(init) == init;
      }
    }
  }

  /** So no accepted namespace names another one's path. */
  lemma ValidNamespacesDoNotAlias(a: string, b: string)
    requires ValidNamespace(a) && ValidNamespace(b) && Resolve(Split(a)) == Resolve(Split(b))
    ensures a == b
  {
    ComponentsAreResolved(Split(a));
    ComponentsAreResolved(Split(b));
    hide Split, Resolve;
    SplitInjective(a, b);
  }

  // ------------------------------------------------------------------ authorization

  datatype Access = Read | Write

  datatype Grant = Grant(token: string, read: seq<string>, write: seq<string>) {
    function Patterns(access: Access): seq<string> {
      if access.Read? then read else write
    }
  }

  /** A rule's claim requirements are a predicate over the verified claims. */
  datatype Rule<!Claims> = Rule(matches: Claims -> bool, read: seq<string>, write: seq<string>) {
    function Patterns(access: Access): seq<string> {
      if access.Read? then read else write
    }
  }

  /** Verification of a token by this issuer, as it turns out for this request. */
  datatype Provider<!Claims> = Provider(issuer: string, verify: string -> Option<Claims>, rules: seq<Rule<Claims>>)

  datatype Authorizer<!Claims> = Authorizer(grants: seq<Grant>, oidc: seq<Provider<Claims>>, allowAnonymous: bool,
                                            anonymousRead: seq<string>, issuerOf: string -> Option<string>)

  /** Headers that are absent or not text are None. */
  datatype Request = Request(protocol: Option<string>, namespace: Option<string>, authorization: Option<string>)

  datatype AuthError = UpgradeRequired | BadNamespace | Unauthorized | Forbidden

  predicate AnyMatches(patterns: seq<string>, namespace: string) {
    exists i :: 0 <= i < |patterns| && MatchesNamespace(patterns[i], namespace)
  }

  function FindGrant(grants: seq<Grant>, token: string): Option<Grant> {
    if grants == [] then None
    else if grants[0].token == token then Some(grants[0])
    else FindGrant(grants[1..], token)
  }

  function FindProvider<Claims>(oidc: seq<Provider<Claims>>, issuer: string): Option<Provider<Claims>> {
    if oidc == [] then None
    else if oidc[0].issuer == issuer then Some(oidc[0])
    else FindProvider(oidc[1..], issuer)
  }

  function Bearer(authorization: Option<string>): Option<string> {
    if authorization.Some? && "Bearer " <= authorization.value then Some(authorization.value[7..]) else None
  }

  predicate RuleGrants<Claims>(rules: seq<Rule<Claims>>, claims: Claims, access: Access, namespace: string) {
    exists i :: 0 <= i < |rules| && rules[i].matches(claims) && AnyMatches(rules[i].Patterns(access), namespace)
  }

  function Authorize<Claims>(a: Authorizer<Claims>, request: Request, access: Access): Result<string, AuthError> {
    if request.protocol != Some("1") then Err(UpgradeRequired)
    else if request.namespace.None? || !ValidNamespace(request.namespace.value) then Err(BadNamespace)
    else
      var namespace := request.namespace.value;
      if a.allowAnonymous && a.grants == [] && |a.oidc| == 0 then Ok(namespace)
      else if access.Read? && AnyMatches(a.anonymousRead, namespace) then Ok(namespace)
      else
        var token := Bearer(request.authorization);
        if token.None? then Err(Unauthorized)
        else
          var grant := FindGrant(a.grants, token.value);
          if grant.Some? then if AnyMatches(grant.value.Patterns(access), namespace) then Ok(namespace)
              else Err(Forbidden)
          else AuthorizeIdentity(a, token.value, access, namespace)
  }

  function AuthorizeIdentity<Claims>(a: Authorizer<Claims>, token: string, access: Access,
                                     namespace: string): Result<string, AuthError> {
    var issuer := a.issuerOf(token);
    if issuer.None? then Err(Unauthorized)
    else
      var provider := FindProvider(a.oidc, issuer.value);
      if provider.None? then Err(Unauthorized)
      else
        var claims := provider.value.verify(token);
        if claims.None? then Err(Unauthorized)
        else if RuleGrants(provider.value.rules, claims.value, access, namespace) then Ok(namespace) else Err(Forbidden)
  }

  /** Some pattern configured for this access, by whatever credential, covers the components. */
  ghost predicate Configured<Claims(!new)>(a: Authorizer<Claims>, access: Access, components: seq<string>) {
    || (access.Read? && AnyCovers(a.anonymousRead, components))
    || (exists i :: 0 <= i < |a.grants| && AnyCovers(a.grants[i].Patterns(access), components))
    || (exists i, j :: 0 <= i < |a.oidc| && 0 <= j < |a.oidc[i].rules|
          && AnyCovers(a.oidc[i].rules[j].Patterns(access), components))
  }

  ghost predicate AnyCovers(patterns: seq<string>, components: seq<string>) {
    exists i :: 0 <= i < |patterns| && Covers(Split(patterns[i]), components)
  }

  lemma AnyMatchIsCover(patterns: seq<string>, namespace: string)
    ensures AnyMatches(patterns, namespace) <==> AnyCovers(patterns, Split(namespace))
  {
    hide MatchesNamespace, Covers, Split;
    forall i | 0 <= i < |patterns| ensures MatchesNamespace(patterns[i], namespace) <==>
        Covers(Split(patterns[i]), Split(namespace)) {
      MatchIsCover(patterns[i], namespace);
    }
  }

  lemma {:induction false} FindGrantFacts(grants: seq<Grant>, token: string)
    ensures FindGrant(grants, token).None? <==> forall i :: 0 <= i < |grants| ==> grants[i].token != token
    ensures FindGrant(grants, token).Some? ==>
              exists i :: 0 <= i < |grants| && FindGrant(grants, token).value == grants[i]
                          && grants[i].token == token && forall j :: 0 <= j < i ==> grants[j].token != token
  {
    if grants != [] && grants[0].token != token {
      FindGrantFacts(grants[1..], token);
      if FindGrant(grants, token).Some? {
        var i :| 0 <= i < |grants[1..]| && FindGrant(grants[1..], token).value == grants[1..][i]
                 && grants[1..][i].token == token && forall j :: 0 <= j < i ==> grants[1..][j].token != token;
        assert grants[i + 1] == grants[1..][i];
        forall j | 0 <= j < i + 1 ensures grants[j].token != token {
          assert j > 0 ==> grants[j] == grants[1..][j - 1];
        }
      } else {
        forall i | 0 <= i < |grants| ensures grants[i].token != token {
          assert i > 0 ==> grants[i] == grants[1..][i - 1];
        }
      }
    }
  }

  lemma {:induction false} FindProviderFacts<Claims(!new)>(oidc: seq<Provider<Claims>>, issuer: string)
    ensures FindProvider(oidc, issuer).Some? ==>
              exists i :: 0 <= i < |oidc| && FindProvider(oidc, issuer).value == oidc[i]
  {
    if |oidc| != 0 && oidc[0].issuer != issuer {
      FindProviderFacts(oidc[1..], issuer);
      if FindProvider(oidc, issuer).Some? {
        var i :| 0 <= i < |oidc[1..]| && FindProvider(oidc[1..], issuer).value == oidc[1..][i];
        assert oidc[i + 1] == oidc[1..][i];
      }
    }
  }

  lemma IdentityIsConfigured<Claims(!new)>(a: Authorizer<Claims>, token: string, access: Access, namespace: string)
    requires AuthorizeIdentity(a, token, access, namespace).Ok?
    ensures AuthorizeIdentity(a, token, access, namespace).value == namespace && Configured(a, access, Split(namespace))
  {
    hide AnyCovers, AnyMatches, Split;
    var issuer := a.issuerOf(token).value;
    FindProviderFacts(a.oidc, issuer);
    var i :| 0 <= i < |a.oidc| && FindProvider(a.oidc, issuer).value == a.oidc[i];
    var claims := a.oidc[i].verify(token).value;
    var j :| 0 <= j < |a.oidc[i].rules| && a.oidc[i].rules[j].matches(claims)
        && AnyMatches(a.oidc[i].rules[j].Patterns(access), namespace);
    AnyMatchIsCover(a.oidc[i].rules[j].Patterns(access), namespace);
  }

  /** Access is only ever given to the namespace named, which is valid, and only when the
      server is open to all or some configured pattern covers its components. */
  lemma AuthorizedIsConfigured<Claims(!new)>(a: Authorizer<Claims>, request: Request, access: Access)
    requires Authorize(a, request, access).Ok?
    ensures request.protocol == Some("1")
    ensures request.namespace == Some(Authorize(a, request, access).value) && ValidNamespace(request.namespace.value)
    ensures || (a.allowAnonymous && a.grants == [] && |a.oidc| == 0)
            || Configured(a, access, Split(request.namespace.value))
  {
    hide Split, AnyCovers, AnyMatches, ValidNamespace;
    var namespace := request.namespace.value;
    AnyMatchIsCover(a.anonymousRead, namespace);
    if Bearer(request.authorization).Some? {
      var token := Bearer(request.authorization).value;
      FindGrantFacts(a.grants, token);
      if FindGrant(a.grants, token).Some? {
        AnyMatchIsCover(FindGrant(a.grants, token).value.Patterns(access), namespace);
      } else if AuthorizeIdentity(a, token, access, namespace).Ok? {
        IdentityIsConfigured(a, token, access, namespace);
      }
    }
  }

  /** A configured token is judged by its first grant alone: a write succeeds exactly when one
      of that grant's write patterns covers the namespace's components. */
  lemma GrantDecidesWrites<Claims(!new)>(a: Authorizer<Claims>, request: Request, i: nat)
    requires i < |a.grants| && (forall j :: 0 <= j < i ==> a.grants[j].token != a.grants[i].token)
    requires request.protocol == Some("1") && request.namespace.Some? && ValidNamespace(request.namespace.value)
    requires request.authorization == Some("Bearer " + a.grants[i].token)
    ensures Authorize(a, request, Write) ==
            if AnyCovers(a.grants[i].write, Split(request.namespace.value)) then Ok(request.namespace.value)
                else Err(Forbidden)
  {
    hide Split, AnyCovers, AnyMatches, ValidNamespace;
    assert ("Bearer " + a.grants[i].token)[7..] == a.grants[i].token;
    FindGrantFacts(a.grants, a.grants[i].token);
    AnyMatchIsCover(a.grants[i].write, request.namespace.value);
  }

  /** Read access needs no token where an anonymous pattern covers the namespace; elsewhere a
      configured token is judged by the read patterns of its first grant. */
  lemma GrantDecidesReads<Claims(!new)>(a: Authorizer<Claims>, request: Request, i: nat)
    requires i < |a.grants| && (forall j :: 0 <= j < i ==> a.grants[j].token != a.grants[i].token)
    requires request.protocol == Some("1") && request.namespace.Some? && ValidNamespace(request.namespace.value)
    requires request.authorization == Some("Bearer " + a.grants[i].token)
    ensures var components := Split(request.namespace.value);
            Authorize(a, request, Read) ==
            if AnyCovers(a.anonymousRead, components) || AnyCovers(a.grants[i].read, components)
            then Ok(request.namespace.value) else Err(Forbidden)
  {
    hide Split, AnyCovers, AnyMatches, ValidNamespace;
    assert ("Bearer " + a.grants[i].token)[7..] == a.grants[i].token;
    FindGrantFacts(a.grants, a.grants[i].token);
    AnyMatchIsCover(a.grants[i].read, request.namespace.value);
    AnyMatchIsCover(a.anonymousRead, request.namespace.value);
  }

  /** A rule whose claims match the verified ones, with a pattern that covers the components. */
  ghost predicate RuleCovers<Claims(!new)>(rule: Rule<Claims>, claims: Claims, access: Access,
                                    components: seq<string>) {
    rule.matches(claims) && AnyCovers(if access.Read? then rule.read else rule.write, components)
  }

  lemma RulesDecide<Claims(!new)>(rules: seq<Rule<Claims>>, claims: Claims, access: Access, namespace: string)
    ensures RuleGrants(rules, claims, access, namespace) <==>
            exists j :: 0 <= j < |rules| && RuleCovers(rules[j], claims, access, Split(namespace))
  {
    hide Split, AnyCovers, AnyMatches;
    forall j | 0 <= j < |rules|
      ensures RuleCovers(rules[j], claims, access, Split(namespace)) <==>
              rules[j].matches(claims) && AnyMatches(rules[j].Patterns(access), namespace)
    {
      AnyMatchIsCover(rules[j].Patterns(access), namespace);
    }
    if exists j :: 0 <= j < |rules| && RuleCovers(rules[j], claims, access, Split(namespace)) {
      var j :| 0 <= j < |rules| && RuleCovers(rules[j], claims, access, Split(namespace));
      assert rules[j].matches(claims) && AnyMatches(rules[j].Patterns(access), namespace);
    }
  }

  /** A bearer who is no configured token is judged by the first provider with the token's issuer
      alone: access exactly if it verifies and one of that provider's rules matches the verified
      claims and covers the namespace's components. */
  lemma IdentityDecides<Claims(!new)>(a: Authorizer<Claims>, request: Request, access: Access, token: string, i: nat)
    requires request.protocol == Some("1") && request.namespace.Some? && ValidNamespace(request.namespace.value)
    requires request.authorization == Some("Bearer " + token) && forall j :: 0 <= j < |a.grants| ==>
             a.grants[j].token != token
    requires i < |a.oidc| && a.issuerOf(token) == Some(a.oidc[i].issuer)
    requires forall j :: 0 <= j < i ==> a.oidc[j].issuer != a.oidc[i].issuer
    requires access.Read? ==> !AnyCovers(a.anonymousRead, Split(request.namespace.value))
    ensures var claims, components := a.oidc[i].verify(token), Split(request.namespace.value);
            Authorize(a, request, access) ==
            if claims.None? then Err(Unauthorized)
            else if (exists j :: 0 <= j < |a.oidc[i].rules| &&
                       RuleCovers(a.oidc[i].rules[j], claims.value, access, components))
            then Ok(request.namespace.value) else Err(Forbidden)
  {
    hide Split, AnyCovers, AnyMatches, ValidNamespace, RuleCovers, RuleGrants;
    assert ("Bearer " + token)[7..] == token;
    FindGrantFacts(a.grants, token);
    FindsFirst(a.oidc, i);
    AnyMatchIsCover(a.anonymousRead, request.namespace.value);
    var claims := a.oidc[i].verify(token);
    if claims.Some? {
      RulesDecide(a.oidc[i].rules, claims.value, access, request.namespace.value);
    }
  }

  lemma {:induction false} FindsFirst<Claims(!new)>(oidc: seq<Provider<Claims>>, i: nat)
    requires i < |oidc| && forall j :: 0 <= j < i ==> oidc[j].issuer != oidc[i].issuer
    ensures FindProvider(oidc, oidc[i].issuer) == Some(oidc[i])
  {
    if i > 0 {
      var rest := oidc[1..];
      assert forall j :: 0 <= j < |rest| ==> rest[j] == oidc[j + 1];
      FindsFirst(rest, i - 1);
    }
  }

  /** Without a usable bearer or a known issuer there is no access beyond the anonymous one. */
  lemma StrangersAreUnauthorized<Claims(!new)>(a: Authorizer<Claims>, request: Request, access: Access)
    requires request.protocol == Some("1") && request.namespace.Some? && ValidNamespace(request.namespace.value)
    requires !(a.allowAnonymous && a.grants == [] && |a.oidc| == 0)
    requires access.Read? ==> !AnyCovers(a.anonymousRead, Split(request.namespace.value))
    requires var token := Bearer(request.authorization);
             token.Some? ==>
               && (forall j :: 0 <= j < |a.grants| ==> a.grants[j].token != token.value)
               && (forall j :: 0 <= j < |a.oidc| ==> a.issuerOf(token.value) != Some(a.oidc[j].issuer))
    ensures Authorize(a, request, access) == Err(Unauthorized)
  {
    hide Split, AnyCovers, AnyMatches, ValidNamespace;
    AnyMatchIsCover(a.anonymousRead, request.namespace.value);
    var token := Bearer(request.authorization);
    if token.Some? {
      FindGrantFacts(a.grants, token.value);
      if a.issuerOf(token.value).Some? {
        FindsNone(a.oidc, a.issuerOf(token.value).value);
      }
    }
  }

  lemma {:induction false} FindsNone<Claims(!new)>(oidc: seq<Provider<Claims>>, issuer: string)
    requires forall j :: 0 <= j < |oidc| ==> oidc[j].issuer != issuer
    ensures FindProvider(oidc, issuer).None?
  {
    if |oidc| > 0 {
      FindsNone(oidc[1..], issuer);
    }
  }

  /** The two refusals that come before any credential, and the server that is open to all. */
  lemma FirstRefusals<Claims(!new)>(a: Authorizer<Claims>, request: Request, access: Access)
    ensures Authorize(a, request, access) == Err(UpgradeRequired) <==> request.protocol != Some("1")
    ensures Authorize(a, request, access) == Err(BadNamespace) <==>
            request.protocol == Some("1") && (request.namespace.None? || !ValidNamespace(request.namespace.value))
    ensures a.allowAnonymous && a.grants == [] && |a.oidc| == 0 && request.protocol == Some("1") &&
            request.namespace.Some? && ValidNamespace(request.namespace.value) ==>
              Authorize(a, request, access) == Ok(request.namespace.value)
  {
    hide ValidNamespace, AnyMatches;
  }
}
