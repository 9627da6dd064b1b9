/**
 The bookkeeping of the server side of SSH user authentication (section 5 of
 RFC 4252): the lists of methods a user must pass, parsed once from the
 configuration; the user name and service fixed by the first request; the
 count of repeated requests; and the replies, which either complete the
 authentication or name the methods that can continue.

 Each list is a chain of methods that together authenticate the user. A
 method that succeeds is removed from the head of every list it heads; when a
 list is used up the user is in. Until then the server answers with a
 partial success naming the heads that remain.

 The authenticators themselves, the session and the wire format are outside
 this model: the outcome of an authenticator (true, false or null in the
 source) is an input, and the session is reduced to what it is told, a
 disconnection flag, the packets sent and the service started.
 */
module UserAuth {

  datatype Option<T> = None | Some(value: T)

  /** Why construction or processing refuses to go on. */
  datatype Error =
    | SessionAlreadyAuthenticated
    | NoUserAuthFactories
    | UnsupportedMethod(name: string)
    | NoCurrentAuthentication

  datatype Result<T> = Ok(value: T) | Err(error: Error)

  /** The name of the `none` method, never offered to a failed client. */
  const NoneMethod: string := "none"

  /** The characters Java's `\s` matches. */
  const Whitespace: set<char> := {' ', '\t', '\n', '\U{000B}', '\U{000C}', '\r'}

  // -------------------------------------------------------------- splitting

  /** The pieces of `s` between separators, empty ones included: a string
      with n separators has n + 1 pieces. */
  function Pieces(s: string, seps: set<char>): (r: seq<string>)
    ensures |r| >= 1
    ensures forall i, j :: 0 <= i < |r| && 0 <= j < |r[i]| ==> r[i][j] !in seps
    decreases |s|
  {
    if s == [] then [[]]
    else
      var rest := Pieces(s[1..], seps);
      if s[0] in seps then [[]] + rest
      else [[s[0]] + rest[0]] + rest[1..]
  }

  function DropTrailingEmpty(p: seq<string>): (r: seq<string>)
    ensures |r| <= |p| && r == p[..|r|]
    ensures r == [] || r[|r| - 1] != []
    decreases |p|
  {
    if p != [] && p[|p| - 1] == [] then DropTrailingEmpty(p[..|p| - 1]) else p
  }

  /** `String.split` on a one-character class: the empty string gives one
      empty piece; otherwise the pieces without the trailing empty ones. */
  function JavaSplit(s: string, seps: set<char>): seq<string>
  {
    if s == [] then [[]] else DropTrailingEmpty(Pieces(s, seps))
  }

  /** `GenericUtils.split`: nothing for the empty string; otherwise the
      pieces between the separators, a single trailing empty one dropped. */
  function GenericSplit(s: string, c: char): (r: seq<string>)
    ensures forall i, j :: 0 <= i < |r| && 0 <= j < |r[i]| ==> r[i][j] != c
  {
    if s == [] then []
    else
      var p := Pieces(s, {c});
      if p[|p| - 1] == [] then p[..|p| - 1] else p
  }

  /** Names joined by a separator. */
  function JoinWith(names: seq<string>, sep: char): string
    decreases |names|
  {
    if names == [] then []
    else if |names| == 1 then names[0]
    else names[0] + [sep] + JoinWith(names[1..], sep)
  }

  /** A method name as it can be configured: not empty, and without the
      separators of the configuration. */
  predicate IsName(m: string)
  {
    m != [] && forall i :: 0 <= i < |m| ==> m[i] != ',' && m[i] !in Whitespace
  }

  /** A text without any of `seps` is a single piece. */
  lemma {:induction false} PiecesOfPlain(a: string, t: string, seps: set<char>)
    requires forall i :: 0 <= i < |a| ==> a[i] !in seps
    ensures Pieces(a + t, seps) == [a + Pieces(t, seps)[0]] + Pieces(t, seps)[1..]
    decreases |a|
  {
    if a == [] {
      var p := Pieces(t, seps);
      assert a + t == t && a + p[0] == p[0] && p == [p[0]] + p[1..];
    } else {
      assert (a + t)[1..] == a[1..] + t;
      PiecesOfPlain(a[1..], t, seps);
      assert [a[0]] + (a[1..] + Pieces(t, seps)[0]) == a + Pieces(t, seps)[0];
    }
  }

  /** Splitting names joined by a separator gives the names back. */
  lemma {:induction false} PiecesOfJoin(names: seq<string>, sep: char, seps: set<char>)
    requires sep in seps && names != []
    requires forall i, j :: 0 <= i < |names| && 0 <= j < |names[i]| ==> names[i][j] !in seps
    ensures Pieces(JoinWith(names, sep), seps) == names
    decreases |names|
  {
    var a := names[0];
    if |names| == 1 {
      PiecesOfPlain(a, [], seps);
      assert a + [] == a;
    } else {
      var rest := JoinWith(names[1..], sep);
      PiecesOfJoin(names[1..], sep, seps);
      assert [sep] + rest != [] && ([sep] + rest)[1..] == rest;
      assert Pieces([sep] + rest, seps) == [[]] + names[1..];
      assert a + [sep] + rest == a + ([sep] + rest);
      PiecesOfPlain(a, [sep] + rest, seps);
      assert a + [] == a;
      assert names == [a] + names[1..];
    }
  }

  /** A comma-separated list of names (a name-list of section 5 of RFC 4251)
      splits back into the names. */
  lemma CommaListRoundTrip(names: seq<string>)
    requires forall i :: 0 <= i < |names| ==> IsName(names[i])
    ensures GenericSplit(JoinWith(names, ','), ',') == names
  {
    if names != [] {
      PiecesOfJoin(names, ',', {','});
      var s := JoinWith(names, ',');
      assert |s| >= |names[0]| > 0 by {
        if |names| > 1 { assert s == names[0] + [','] + JoinWith(names[1..], ','); }
      }
    }
  }

  // ------------------------------------------------------ the method lists

  /** Without configuration: one list per factory, holding its name. */
  function SingletonLists(names: seq<string>): (r: seq<seq<string>>)
    ensures |r| == |names| && forall i :: 0 <= i < |r| ==> r[i] == [names[i]]
  {
    seq(|names|, i requires 0 <= i < |names| => [names[i]])
  }

  /** Each whitespace-separated field is a comma-separated chain. */
  function CommaLists(fields: seq<string>): (r: seq<seq<string>>)
    ensures |r| == |fields|
  {
    seq(|fields|, i requires 0 <= i < |fields| => GenericSplit(fields[i], ','))
  }

  /** The method lists of a server with factories `names` and the configured
      methods `config` (absent or empty: none configured). */
  function ConfiguredMethods(names: seq<string>, config: Option<string>): seq<seq<string>>
  {
    if config.None? || config.value == [] then SingletonLists(names)
    else CommaLists(JavaSplit(config.value, Whitespace))
  }

  /** The configuration text of some method lists: chains joined by commas,
      lists by spaces. */
  function Render(lists: seq<seq<string>>): string
  {
    JoinWith(Chains(lists), ' ')
  }

  /** Each list written as a comma-separated chain. */
  function Chains(lists: seq<seq<string>>): (r: seq<string>)
    ensures |r| == |lists|
  {
    seq(|lists|, i requires 0 <= i < |lists| => JoinWith(lists[i], ','))
  }

  /** Parsing the configuration is the inverse of writing it: non-empty lists
      of names, written as comma-separated chains separated by spaces, parse
      back into the same lists. */
  lemma ParseRender(names: seq<string>, lists: seq<seq<string>>)
    requires lists != []
    requires forall i :: 0 <= i < |lists| ==> lists[i] != []
    requires forall i, j :: 0 <= i < |lists| && 0 <= j < |lists[i]| ==> IsName(lists[i][j])
    ensures ConfiguredMethods(names, Some(Render(lists))) == lists
  {
    RenderSplits(lists);
    var fields := Chains(lists);
    forall i | 0 <= i < |lists|
      ensures GenericSplit(fields[i], ',') == lists[i]
    {
      CommaListRoundTrip(lists[i]);
    }
    assert CommaLists(fields) == lists;
  }

  /** The written configuration is not empty, and splitting it at whitespace
      gives the chains back. */
  lemma RenderSplits(lists: seq<seq<string>>)
    requires lists != []
    requires forall i :: 0 <= i < |lists| ==> lists[i] != []
    requires forall i, j :: 0 <= i < |lists| && 0 <= j < |lists[i]| ==> IsName(lists[i][j])
    ensures Render(lists) != [] && JavaSplit(Render(lists), Whitespace) == Chains(lists)
  {
    var fields := Chains(lists);
    forall i | 0 <= i < |lists|
      ensures fields[i] != [] && forall j :: 0 <= j < |fields[i]| ==> fields[i][j] !in Whitespace
    {
      JoinNoWhitespace(lists[i]);
    }
    var text := JoinWith(fields, ' ');
    PiecesOfJoin(fields, ' ', Whitespace);
    assert text != [] by { assert |text| >= |fields[0]|; }
    assert fields[|fields| - 1] != [];
  }

  /** Names joined by commas hold no whitespace, and are not empty when a
      name is there. */
  lemma {:induction false} JoinNoWhitespace(names: seq<string>)
    requires names != []
    requires forall i :: 0 <= i < |names| ==> IsName(names[i])
    ensures JoinWith(names, ',') != []
    ensures forall j :: 0 <= j < |JoinWith(names, ',')| ==> JoinWith(names, ',')[j] !in Whitespace
    decreases |names|
  {
    if |names| > 1 {
      JoinNoWhitespace(names[1..]);
      var s := JoinWith(names, ',');
      var a, rest := names[0], JoinWith(names[1..], ',');
      assert s == a + [','] + rest;
      assert forall j :: 0 <= j < |s| ==> s[j] !in Whitespace by {
        forall j | 0 <= j < |s| ensures s[j] !in Whitespace {
          if j < |a| { assert s[j] == a[j]; }
          else if j > |a| { assert s[j] == rest[j - |a| - 1]; }
        }
      }
    }
  }

  /** Without configuration, the lists are one singleton per factory, in
      factory order. */
  lemma DefaultMethodLists(names: seq<string>, config: Option<string>)
    requires config.None? || config == Some([])
    ensures |ConfiguredMethods(names, config)| == |names|
    ensures forall i :: 0 <= i < |names| ==> ConfiguredMethods(names, config)[i] == [names[i]]
  {
  }

  /** A configured method never holds a separator. */
  lemma ConfiguredNamesPlain(names: seq<string>, c: string)
    requires c != []
    ensures var lists := ConfiguredMethods(names, Some(c));
      forall i, j, k :: 0 <= i < |lists| && 0 <= j < |lists[i]| && 0 <= k < |lists[i][j]| ==>
        lists[i][j][k] != ',' && lists[i][j][k] !in Whitespace
  {
    var fields := JavaSplit(c, Whitespace);
    var lists := ConfiguredMethods(names, Some(c));
    assert forall i, k :: 0 <= i < |fields| && 0 <= k < |fields[i]| ==> fields[i][k] !in Whitespace by {
      var p := Pieces(c, Whitespace);
      assert fields == p[..|fields|];
    }
    forall i, j, k | 0 <= i < |lists| && 0 <= j < |lists[i]| && 0 <= k < |lists[i][j]|
      ensures lists[i][j][k] != ',' && lists[i][j][k] !in Whitespace
    {
      var f := fields[i];
      var p := Pieces(f, {','});
      assert lists[i] == GenericSplit(f, ',');
      assert f != [] ==> lists[i] == p[..|lists[i]|];
      CharOfPiece(f, {','}, j, k);
    }
  }

  /** Every character of a piece is a character of the text. */
  lemma {:induction false} CharOfPiece(s: string, seps: set<char>, j: nat, k: nat)
    requires j < |Pieces(s, seps)| && k < |Pieces(s, seps)[j]|
    ensures Pieces(s, seps)[j][k] in s
    decreases |s|
  {
    var rest := Pieces(s[1..], seps);
    if s[0] in seps {
      CharOfPiece(s[1..], seps, j - 1, k);
    } else if j == 0 && k == 0 {
    } else if j == 0 {
      CharOfPiece(s[1..], seps, 0, k - 1);
    } else {
      CharOfPiece(s[1..], seps, j, k);
    }
  }

  // ------------------------------------------------------------ the lookup

  function Lower(c: char): char
  {
    if 'A' <= c <= 'Z' then (c as int - 'A' as int + 'a' as int) as char else c
  }

  /** Equality under `String.CASE_INSENSITIVE_ORDER`, for ASCII letters. */
  predicate EqualsIgnoreCase(a: string, b: string)
  {
    |a| == |b| && forall i :: 0 <= i < |a| ==> Lower(a[i]) == Lower(b[i])
  }

  /** The first factory from position `k` on whose name equals `name` up to
      case. */
  function FindFrom(name: string, names: seq<string>, k: nat): (r: Option<nat>)
    requires k <= |names|
    ensures r.Some? ==> (k <= r.value < |names| && EqualsIgnoreCase(name, names[r.value])
      && forall j :: k <= j < r.value ==> !EqualsIgnoreCase(name, names[j]))
    ensures r.None? ==> forall j :: k <= j < |names| ==> !EqualsIgnoreCase(name, names[j])
    decreases |names| - k
  {
    if k == |names| then None
    else if EqualsIgnoreCase(name, names[k]) then Some(k)
    else FindFrom(name, names, k + 1)
  }

  /** The factory a method name selects: none for the empty name, otherwise
      the first whose name equals it up to case. */
  function FindByName(name: string, names: seq<string>): (r: Option<nat>)
    ensures r.Some? <==> name != [] && exists j :: 0 <= j < |names| && EqualsIgnoreCase(name, names[j])
    ensures r.Some? ==> (r.value < |names| && EqualsIgnoreCase(name, names[r.value])
      && forall j :: 0 <= j < r.value ==> !EqualsIgnoreCase(name, names[j]))
  {
    if name == [] then None else FindFrom(name, names, 0)
  }

  /** Every configured method names a factory. */
  predicate AllSupported(lists: seq<seq<string>>, names: seq<string>)
  {
    forall i, j :: 0 <= i < |lists| && 0 <= j < |lists[i]| ==> FindByName(lists[i][j], names).Some?
  }

  /** The first method of a chain, in order, that names no factory. */
  function FirstUnsupportedIn(l: seq<string>, names: seq<string>): Option<string>
    decreases |l|
  {
    if l == [] then None
    else if FindByName(l[0], names).None? then Some(l[0])
    else FirstUnsupportedIn(l[1..], names)
  }

  /** The first method of the lists, in order, that names no factory. */
  function FirstUnsupported(lists: seq<seq<string>>, names: seq<string>): Option<string>
    decreases |lists|
  {
    if lists == [] then None
    else if FirstUnsupportedIn(lists[0], names).Some? then FirstUnsupportedIn(lists[0], names)
    else FirstUnsupported(lists[1..], names)
  }

  lemma {:induction false} FirstUnsupportedInSpec(l: seq<string>, names: seq<string>)
    ensures FirstUnsupportedIn(l, names).None? <==> forall j :: 0 <= j < |l| ==> FindByName(l[j], names).Some?
    ensures FirstUnsupportedIn(l, names).Some? ==>
      FirstUnsupportedIn(l, names).value in l && FindByName(FirstUnsupportedIn(l, names).value, names).None?
    decreases |l|
  {
    if l != [] {
      FirstUnsupportedInSpec(l[1..], names);
      if FindByName(l[0], names).Some? {
        assert forall j :: 1 <= j < |l| ==> l[j] == l[1..][j - 1];
      }
    }
  }

  /** The search reports a method exactly when some configured method names
      no factory, and what it reports is such a method. */
  lemma {:induction false} FirstUnsupportedSpec(lists: seq<seq<string>>, names: seq<string>)
    ensures FirstUnsupported(lists, names).None? <==> AllSupported(lists, names)
    ensures FirstUnsupported(lists, names).Some? ==>
      var m := FirstUnsupported(lists, names).value;
      FindByName(m, names).None? && exists i :: 0 <= i < |lists| && m in lists[i]
    decreases |lists|
  {
    if lists != [] {
      FirstUnsupportedInSpec(lists[0], names);
      FirstUnsupportedSpec(lists[1..], names);
      if FirstUnsupportedIn(lists[0], names).None? {
        assert forall i :: 1 <= i < |lists| ==> lists[i] == lists[1..][i - 1];
      }
    }
  }

  // ---------------------------------------------------------------- replies

  /** What the session is sent. */
  datatype Packet = UserAuthSuccess | UserAuthFailure(methods: string, partialSuccess: bool)

  /** The `StringBuilder` loop: each name appended, preceded by a comma when
      the text built so far is not empty. */
  function BuildList(heads: seq<string>): string
    decreases |heads|
  {
    if heads == [] then []
    else
      var sb := BuildList(heads[..|heads| - 1]);
      var m := heads[|heads| - 1];
      if |sb| > 0 then sb + [','] + m else sb + m
  }

  /** The head of a chain, if it is offered. */
  function HeadOf(l: seq<string>, skipNone: bool): seq<string>
  {
    if |l| > 0 && !(skipNone && l[0] == NoneMethod) then [l[0]] else []
  }

  /** The heads of the non-empty chains, in order, without `none` when
      `skipNone`. */
  function Heads(lists: seq<seq<string>>, skipNone: bool): (r: seq<string>)
    decreases |lists|
  {
    if lists == [] then []
    else Heads(lists[..|lists| - 1], skipNone) + HeadOf(lists[|lists| - 1], skipNone)
  }

  lemma {:induction false} HeadsSpec(lists: seq<seq<string>>, skipNone: bool, h: string)
    ensures h in Heads(lists, skipNone) <==>
      exists i :: 0 <= i < |lists| && |lists[i]| > 0 && lists[i][0] == h && !(skipNone && h == NoneMethod)
    decreases |lists|
  {
    if lists != [] {
      var init := lists[..|lists| - 1];
      HeadsSpec(init, skipNone, h);
      assert forall i :: 0 <= i < |init| ==> init[i] == lists[i];
    }
  }

  /** A failed client is offered the head of every non-empty chain except
      `none`, and nothing else. */
  lemma FailureOffers(lists: seq<seq<string>>, h: string)
    ensures h in Heads(lists, true) <==> h != NoneMethod && exists i :: 0 <= i < |lists| && |lists[i]| > 0 && lists[i][0] == h
  {
    HeadsSpec(lists, true, h);
  }

  /** With no empty name, the built text is the names joined by commas. */
  lemma {:induction false} BuildListJoins(heads: seq<string>)
    requires forall i :: 0 <= i < |heads| ==> heads[i] != []
    ensures BuildList(heads) == JoinWith(heads, ',')
    decreases |heads|
  {
    if |heads| > 1 {
      var init := heads[..|heads| - 1];
      BuildListJoins(init);
      JoinSnoc(init, heads[|heads| - 1], ',');
      assert init + [heads[|heads| - 1]] == heads;
      assert |JoinWith(init, ',')| >= |init[0]| > 0 by { JoinLength(init, ','); }
    } else if |heads| == 1 {
      assert heads[..0] == [];
      assert [] + heads[0] == heads[0];
    }
  }

  lemma {:induction false} JoinLength(names: seq<string>, sep: char)
    requires names != []
    ensures |JoinWith(names, sep)| >= |names[0]|
  {
  }

  lemma {:induction false} JoinSnoc(names: seq<string>, m: string, sep: char)
    requires names != []
    ensures JoinWith(names + [m], sep) == JoinWith(names, sep) + [sep] + m
    decreases |names|
  {
    if |names| == 1 {
      assert names + [m] == [names[0], m];
    } else {
      assert (names + [m])[1..] == names[1..] + [m];
      JoinSnoc(names[1..], m, sep);
    }
  }

  /** The methods a reply names can be read back by the client: splitting
      the reply text at its commas gives the offered heads, in order. */
  lemma RepliedMethodsReadBack(lists: seq<seq<string>>, skipNone: bool)
    requires forall i, j :: 0 <= i < |lists| && 0 <= j < |lists[i]| ==> IsName(lists[i][j])
    ensures GenericSplit(BuildList(Heads(lists, skipNone)), ',') == Heads(lists, skipNone)
  {
    var hs := Heads(lists, skipNone);
    forall k | 0 <= k < |hs| ensures IsName(hs[k]) {
      HeadsSpec(lists, skipNone, hs[k]);
    }
    BuildListJoins(hs);
    CommaListRoundTrip(hs);
  }

  // ------------------------------------------------------------ the state

  /** A request, or one of the follow-up messages of a method in progress. */
  datatype Message = Request(username: string, service: string, methodName: string) | Continue(cmd: int)

  /** What the authenticator answers: `Boolean.TRUE`, `Boolean.FALSE` (also
      when it throws) or null (it needs more messages). */
  datatype Outcome = Authenticated | Rejected | InProgress

  /** A snapshot of the service. `configured` is the lists as parsed at
      construction; `currentAuth` names the factory of the method in
      progress. */
  datatype AuthState = AuthState(
    factoryNames: seq<string>,
    maxAuthRequests: int,
    configured: seq<seq<string>>,
    authMethods: seq<seq<string>>,
    authUserName: Option<string>,
    authService: Option<string>,
    authMethod: Option<string>,
    currentAuth: Option<string>,
    nbAuthRequests: int,
    disconnected: bool,
    authenticated: bool,
    startedService: Option<string>,
    sent: seq<Packet>)
  {
    /** Each chain is what is left of its configured chain; the user name and
        service are fixed together; a method is in progress only after a
        request named it; and the user is authenticated exactly when some
        configured chain has been used up. */
    predicate Valid()
    {
      ChainsValid(configured, authMethods, authenticated)
      && (authUserName.Some? <==> authService.Some?)
      && (currentAuth.Some? ==> authMethod.Some?)
    }
  }

  /** Each chain is what is left of its configured chain, and the user is
      authenticated exactly when a configured chain has been used up. */
  predicate ChainsValid(configured: seq<seq<string>>, lists: seq<seq<string>>, authenticated: bool)
  {
    |lists| == |configured|
    && (forall i :: 0 <= i < |configured| ==> IsSuffix(lists[i], configured[i]))
    && (authenticated <==> exists i :: 0 <= i < |configured| && UsedUp(lists[i], configured[i]))
  }

  predicate IsSuffix(a: seq<string>, b: seq<string>)
  {
    |a| <= |b| && a == b[|b| - |a|..]
  }

  /** A configured chain all of whose methods have succeeded. */
  predicate UsedUp(left: seq<string>, chain: seq<string>)
  {
    left == [] && chain != []
  }

  /** The service after a successful construction. */
  function Initial(names: seq<string>, maxAuthRequests: int, lists: seq<seq<string>>): (s: AuthState)
    ensures s.Valid()
  {
    AuthState(names, maxAuthRequests, lists, lists, None, None, None, None, 0, false, false, None, [])
  }

  /** Construction: refused for a session that is already authenticated, for
      a server without factories and for a configured method that names no
      factory. */
  function Construct(sessionAuthenticated: bool, maxAuthRequests: int, names: seq<string>, config: Option<string>): Result<AuthState>
  {
    if sessionAuthenticated then Err(SessionAlreadyAuthenticated)
    else if names == [] then Err(NoUserAuthFactories)
    else
      var lists := ConfiguredMethods(names, config);
      match FirstUnsupported(lists, names)
      case Some(m) => Err(UnsupportedMethod(m))
      case None => Ok(Initial(names, maxAuthRequests, lists))
  }

  /** A constructed service starts with its configured lists, none of them
      holding an empty name, every name selecting a factory, and nobody
      authenticated. */
  lemma ConstructSpec(sessionAuthenticated: bool, maxAuthRequests: int, names: seq<string>, config: Option<string>)
    ensures var r := Construct(sessionAuthenticated, maxAuthRequests, names, config);
      r.Ok? <==> !sessionAuthenticated && names != [] && AllSupported(ConfiguredMethods(names, config), names)
    ensures var r := Construct(sessionAuthenticated, maxAuthRequests, names, config);
      r.Ok? ==> (r.value.Valid() && !r.value.authenticated && r.value.authMethods == ConfiguredMethods(names, config)
        && forall i, j :: 0 <= i < |r.value.authMethods| && 0 <= j < |r.value.authMethods[i]| ==>
             r.value.authMethods[i][j] != [] && FindByName(r.value.authMethods[i][j], names).Some?)
  {
    FirstUnsupportedSpec(ConfiguredMethods(names, config), names);
  }

  /** Removes `m` from the head of a chain it heads. */
  function PopHead(l: seq<string>, m: Option<string>): seq<string>
  {
    if |l| > 0 && m == Some(l[0]) then l[1..] else l
  }

  function PopAll(lists: seq<seq<string>>, m: Option<string>): (r: seq<seq<string>>)
    ensures |r| == |lists|
  {
    seq(|lists|, i requires 0 <= i < |lists| => PopHead(lists[i], m))
  }

  /** `m` was the last method of the chain `l`. */
  predicate CompletedBy(l: seq<string>, m: Option<string>)
  {
    |l| == 1 && m == Some(l[0])
  }

  predicate Completes(lists: seq<seq<string>>, m: Option<string>)
  {
    exists i :: 0 <= i < |lists| && CompletedBy(lists[i], m)
  }

  /** The method in progress succeeded: it leaves the head of every chain it
      heads. A chain used up completes the authentication; otherwise the
      client is told which methods can continue, with partial success. */
  function Success(s: AuthState): AuthState
  {
    var lists := PopAll(s.authMethods, s.authMethod);
    if Completes(s.authMethods, s.authMethod) then
      s.(authMethods := lists, currentAuth := None, authenticated := true,
         startedService := s.authService, sent := s.sent + [UserAuthSuccess])
    else
      s.(authMethods := lists, currentAuth := None,
         sent := s.sent + [UserAuthFailure(BuildList(Heads(lists, false)), true)])
  }

  /** The method in progress failed: the client is told which methods can
      continue, without partial success; the chains are not touched. */
  function Failure(s: AuthState): AuthState
  {
    s.(currentAuth := None, sent := s.sent + [UserAuthFailure(BuildList(Heads(s.authMethods, true)), false)])
  }

  function Conclude(s: AuthState, outcome: Outcome): AuthState
  {
    match outcome
    case Authenticated => Success(s)
    case Rejected => Failure(s)
    case InProgress => s
  }

  /** The method of a request is tried when it selects a factory; a method
      without a factory fails whatever the outcome. */
  function Attempt(s: AuthState, m: string, outcome: Outcome): AuthState
  {
    var s1 := s.(authMethod := Some(m));
    match FindByName(m, s.factoryNames)
    case Some(k) => Conclude(s1.(currentAuth := Some(s.factoryNames[k])), outcome)
    case None => Conclude(s1, Rejected)
  }

  /** A request: the method in progress is dropped; the first request fixes
      the user and service; a later one for the same pair is counted, and the
      session is disconnected when the count before it exceeds the maximum;
      a later one for another pair is disconnected. */
  function HandleRequest(s: AuthState, user: string, service: string, m: string, outcome: Outcome): AuthState
  {
    var s0 := s.(currentAuth := None);
    if s0.authUserName.None? || s0.authService.None? then
      Attempt(s0.(authUserName := Some(user), authService := Some(service)), m, outcome)
    else if s0.authUserName.value == user && s0.authService.value == service then Repeated(s0, m, outcome)
    else s0.(disconnected := true)
  }

  /** A repeated request for the same user and service is counted; when the
      count before it exceeds the maximum the session is disconnected,
      otherwise the method is tried. */
  function Repeated(s: AuthState, m: string, outcome: Outcome): AuthState
  {
    var s1 := s.(nbAuthRequests := s.nbAuthRequests + 1);
    if s.nbAuthRequests > s.maxAuthRequests then s1.(disconnected := true)
    else Attempt(s1, m, outcome)
  }

  /** One message. A follow-up message without a method in progress is an
      illegal state. */
  function ProcessMessage(s: AuthState, msg: Message, outcome: Outcome): Result<AuthState>
  {
    match msg
    case Request(user, service, m) => Ok(HandleRequest(s, user, service, m, outcome))
    case Continue(_) =>
      if s.currentAuth.None? then Err(NoCurrentAuthentication) else Ok(Conclude(s, outcome))
  }

  // ---------------------------------------------------------------- lemmas

  /** The first request fixes the user name and the service, and it is not
      counted. */
  lemma FirstRequestFixesUser(s: AuthState, user: string, service: string, m: string, outcome: Outcome)
    requires s.Valid() && s.authUserName.None?
    ensures var r := HandleRequest(s, user, service, m, outcome);
      r.authUserName == Some(user) && r.authService == Some(service)
      && r.nbAuthRequests == s.nbAuthRequests && r.disconnected == s.disconnected && r.authMethod == Some(m)
  {
  }

  /** Once fixed, the user name and the service never change. */
  lemma UserStaysFixed(s: AuthState, msg: Message, outcome: Outcome)
    requires s.authUserName.Some? && s.authService.Some?
    ensures var r := ProcessMessage(s, msg, outcome);
      r.Ok? ==> r.value.authUserName == s.authUserName && r.value.authService == s.authService
  {
  }

  /** A request for another user or service disconnects the session without
      an attempt: no reply, the chains and the count unchanged, and no
      method in progress. */
  lemma ChangeOfUserDisconnects(s: AuthState, user: string, service: string, m: string, outcome: Outcome)
    requires s.authUserName.Some? && s.authService.Some?
    requires s.authUserName != Some(user) || s.authService != Some(service)
    ensures HandleRequest(s, user, service, m, outcome) == s.(currentAuth := None, disconnected := true)
  {
  }

  /** A repeated request is counted; it disconnects, without an attempt,
      exactly when the count before it is above the maximum. */
  lemma RepeatedRequestCounted(s: AuthState, m: string, outcome: Outcome)
    requires s.authUserName.Some? && s.authService.Some? && !s.disconnected
    ensures var r := HandleRequest(s, s.authUserName.value, s.authService.value, m, outcome);
      r.nbAuthRequests == s.nbAuthRequests + 1
      && (r.disconnected <==> s.nbAuthRequests > s.maxAuthRequests)
      && (r.disconnected ==> r.sent == s.sent && r.authMethods == s.authMethods && r.authMethod == s.authMethod)
  {
  }

  /** Once the count of repeated requests is above the maximum, the next
      request for the fixed user disconnects the session. */
  lemma AttemptsBounded(s: AuthState, m: string)
    requires s.authUserName.Some? && s.authService.Some? && !s.disconnected && s.nbAuthRequests > s.maxAuthRequests
    ensures HandleRequest(s, s.authUserName.value, s.authService.value, m, Rejected).disconnected
  {
  }

  /** A method that selects no factory fails, whatever the authenticator
      would say, and leaves no method in progress. */
  lemma UnknownMethodFails(s: AuthState, m: string, outcome: Outcome)
    requires FindByName(m, s.factoryNames).None?
    ensures Attempt(s, m, outcome) == Failure(s.(authMethod := Some(m)))
    ensures Attempt(s, m, outcome).currentAuth.None?
  {
  }

  /** Success takes the method off the head of exactly the chains it heads,
      case-sensitively, and completes the authentication exactly when one of
      them is used up. */
  lemma SuccessPops(s: AuthState)
    ensures var r := Success(s);
      |r.authMethods| == |s.authMethods|
      && forall i :: 0 <= i < |s.authMethods| ==>
           if |s.authMethods[i]| > 0 && s.authMethod == Some(s.authMethods[i][0])
           then r.authMethods[i] == s.authMethods[i][1..]
           else r.authMethods[i] == s.authMethods[i]
    ensures var r := Success(s);
      r.sent[|s.sent|..] == [UserAuthSuccess] <==> exists i :: 0 <= i < |r.authMethods| && r.authMethods[i] != s.authMethods[i] && r.authMethods[i] == []
  {
    var r := Success(s);
    if Completes(s.authMethods, s.authMethod) {
      var i :| 0 <= i < |s.authMethods| && CompletedBy(s.authMethods[i], s.authMethod);
      assert r.authMethods[i] != s.authMethods[i] && r.authMethods[i] == [];
    } else {
      assert r.sent[|s.sent|..] != [UserAuthSuccess];
    }
  }

  /** A partial success names the heads of the chains left, with the
      partial-success flag set, and changes nothing else. */
  lemma PartialSuccessReply(s: AuthState)
    requires !Completes(s.authMethods, s.authMethod)
    ensures var r := Success(s);
      r.sent == s.sent + [UserAuthFailure(BuildList(Heads(r.authMethods, false)), true)]
      && !r.authenticated == !s.authenticated && r.startedService == s.startedService
      && r.currentAuth.None? && r.disconnected == s.disconnected
  {
  }

  /** A failure names the heads of the chains except `none`, without the
      partial-success flag, and leaves the chains alone. */
  lemma FailureReply(s: AuthState)
    ensures var r := Failure(s);
      r.authMethods == s.authMethods && r.currentAuth.None? && r.authenticated == s.authenticated
      && r.sent == s.sent + [UserAuthFailure(BuildList(Heads(s.authMethods, true)), false)]
      && NoneMethod !in Heads(s.authMethods, true)
  {
    HeadsSpec(s.authMethods, true, NoneMethod);
  }

  /** After a success or a failure no method is in progress, so a follow-up
      message is an illegal state; a method still in progress stays so. */
  lemma ConcludeClearsCurrent(s: AuthState, outcome: Outcome, cmd: int, next: Outcome)
    requires outcome != InProgress
    ensures Conclude(s, outcome).currentAuth.None?
    ensures ProcessMessage(Conclude(s, outcome), Continue(cmd), next) == Err(NoCurrentAuthentication)
    ensures Conclude(s, InProgress) == s
  {
  }

  /** A successful step keeps a chain a suffix of its configured chain. */
  lemma PopKeepsSuffix(l: seq<string>, c: seq<string>, m: Option<string>)
    requires IsSuffix(l, c)
    ensures IsSuffix(PopHead(l, m), c)
  {
    if |l| > 0 && m == Some(l[0]) {
      assert c[|c| - |l|..][1..] == c[|c| - (|l| - 1)..];
    }
  }

  /** A success keeps the chains well formed. */
  lemma PopAllKeepsChains(configured: seq<seq<string>>, lists: seq<seq<string>>, authenticated: bool, m: Option<string>)
    requires ChainsValid(configured, lists, authenticated)
    ensures ChainsValid(configured, PopAll(lists, m), authenticated || Completes(lists, m))
  {
    var r := PopAll(lists, m);
    forall i | 0 <= i < |configured| ensures IsSuffix(r[i], configured[i]) {
      PopKeepsSuffix(lists[i], configured[i], m);
    }
    if Completes(lists, m) {
      var i :| 0 <= i < |lists| && CompletedBy(lists[i], m);
      assert UsedUp(r[i], configured[i]);
    } else {
      forall i | 0 <= i < |configured|
        ensures UsedUp(r[i], configured[i]) == UsedUp(lists[i], configured[i])
      {
        assert !CompletedBy(lists[i], m);
      }
    }
  }

  lemma ConcludeKeepsValid(s: AuthState, outcome: Outcome)
    requires s.Valid() && s.authMethod.Some?
    ensures Conclude(s, outcome).Valid()
  {
    if outcome == Authenticated {
      PopAllKeepsChains(s.configured, s.authMethods, s.authenticated, s.authMethod);
    }
  }

  lemma AttemptKeepsValid(s: AuthState, m: string, outcome: Outcome)
    requires s.Valid()
    ensures Attempt(s, m, outcome).Valid()
  {
    var s1 := s.(authMethod := Some(m));
    match FindByName(m, s.factoryNames)
    case Some(k) => ConcludeKeepsValid(s1.(currentAuth := Some(s.factoryNames[k])), outcome);
    case None => ConcludeKeepsValid(s1, Rejected);
  }

  lemma RequestKeepsValid(s: AuthState, user: string, service: string, m: string, outcome: Outcome)
    requires s.Valid()
    ensures HandleRequest(s, user, service, m, outcome).Valid()
  {
    var s0 := s.(currentAuth := None);
    var r := HandleRequest(s, user, service, m, outcome);
    assert s0.Valid();
    if s0.authUserName.None? || s0.authService.None? {
      var t := s0.(authUserName := Some(user), authService := Some(service));
      assert t.Valid();
      assert r == Attempt(t, m, outcome);
      AttemptKeepsValid(t, m, outcome);
    } else if s0.authUserName.value == user && s0.authService.value == service {
      var s1 := s0.(nbAuthRequests := s0.nbAuthRequests + 1);
      assert s1.Valid();
      if s0.nbAuthRequests > s0.maxAuthRequests {
        assert r == s1.(disconnected := true);
      } else {
        assert r == Attempt(s1, m, outcome);
        AttemptKeepsValid(s1, m, outcome);
      }
    } else {
      assert r == s0.(disconnected := true);
    }
  }

  /** Every message keeps the service well formed: the chains only ever
      lose heads, and the user is authenticated exactly when a configured
      chain is used up. */
  lemma ProcessKeepsValid(s: AuthState, msg: Message, outcome: Outcome)
    requires s.Valid()
    ensures ProcessMessage(s, msg, outcome).Ok? ==> ProcessMessage(s, msg, outcome).value.Valid()
  {
    match msg
    case Request(user, service, m) => RequestKeepsValid(s, user, service, m, outcome);
    case Continue(_) =>
      if s.currentAuth.Some? { ConcludeKeepsValid(s, outcome); }
  }

  /** Authentication is never taken back. */
  lemma AuthenticatedStays(s: AuthState, msg: Message, outcome: Outcome)
    requires s.authenticated
    ensures ProcessMessage(s, msg, outcome).Ok? ==> ProcessMessage(s, msg, outcome).value.authenticated
  {
  }

  /** The factories of the example: `password`, `publickey` and
      `keyboard-interactive`. */
  const ExampleFactories: seq<string> := ["password", "publickey", "keyboard-interactive"]

  /** The chain `publickey,password`, or `keyboard-interactive` alone. */
  const ExampleLists: seq<seq<string>> := [["publickey", "password"], ["keyboard-interactive"]]

  /** The example service after a successful public key. */
  function AfterPublicKey(): AuthState
  {
    AuthState(ExampleFactories, 20, ExampleLists, [["password"], ["keyboard-interactive"]],
              Some("joe"), Some("ssh-connection"), Some("publickey"), None, 0, false, false, None,
              [UserAuthFailure("password" + "," + "keyboard-interactive", true)])
  }

  /** `publickey` selects the second factory and `password` the first. */
  lemma ExampleLookups()
    ensures FindByName("publickey", ExampleFactories) == Some(1)
    ensures FindByName("password", ExampleFactories) == Some(0)
  {
    var names := ExampleFactories;
    assert !EqualsIgnoreCase("publickey", names[0]) by { assert |"publickey"| != |names[0]|; }
    assert EqualsIgnoreCase("publickey", names[1]);
    assert EqualsIgnoreCase("password", names[0]);
  }

  /** The partial-success reply after the public key. */
  lemma ExampleHeads()
    ensures Heads([["password"], ["keyboard-interactive"]], false) == ["password", "keyboard-interactive"]
  {
    var p1 := [["password"], ["keyboard-interactive"]];
    assert p1[..1] == [["password"]] && p1[..1][..0] == [];
    assert HeadOf(p1[0], false) == ["password"];
    assert Heads(p1[..1], false) == ["password"];
    assert HeadOf(p1[1], false) == ["keyboard-interactive"];
  }

  lemma BuildListPair(a: string, b: string)
    requires a != []
    ensures BuildList([a, b]) == a + [','] + b
  {
    assert [a, b][..1] == [a] && [a][..0] == [];
    assert BuildList([a]) == a;
  }

  lemma ExampleReply()
    ensures BuildList(Heads([["password"], ["keyboard-interactive"]], false)) == "password" + "," + "keyboard-interactive"
  {
    ExampleHeads();
    BuildListPair("password", "keyboard-interactive");
  }

  /** A public key alone is a partial success that names `password` and
      `keyboard-interactive`. */
  lemma PublicKeyIsPartial()
    ensures HandleRequest(Initial(ExampleFactories, 20, ExampleLists), "joe", "ssh-connection", "publickey", Authenticated)
      == AfterPublicKey()
  {
    ExampleLookups();
    var t := Initial(ExampleFactories, 20, ExampleLists).(authUserName := Some("joe"), authService := Some("ssh-connection"));
    assert HandleRequest(Initial(ExampleFactories, 20, ExampleLists), "joe", "ssh-connection", "publickey", Authenticated)
      == Attempt(t, "publickey", Authenticated);
    var u := t.(authMethod := Some("publickey"), currentAuth := Some("publickey"));
    assert Attempt(t, "publickey", Authenticated) == Success(u);
    var p1 := PopAll(ExampleLists, Some("publickey"));
    assert p1 == [["password"], ["keyboard-interactive"]];
    assert !CompletedBy(ExampleLists[0], Some("publickey")) && !CompletedBy(ExampleLists[1], Some("publickey"));
    assert !Completes(ExampleLists, Some("publickey"));
    ExampleReply();
    assert Success(u) == u.(authMethods := p1, currentAuth := None,
                            sent := [UserAuthFailure("password" + "," + "keyboard-interactive", true)]);
  }

  /** A password after it uses the chain up: the user is authenticated, the
      service started, and the repeated request counted. */
  lemma PasswordCompletes()
    ensures HandleRequest(AfterPublicKey(), "joe", "ssh-connection", "password", Authenticated)
      == AfterPublicKey().(authMethods := [[], ["keyboard-interactive"]], authMethod := Some("password"),
                           nbAuthRequests := 1, authenticated := true, startedService := Some("ssh-connection"),
                           sent := AfterPublicKey().sent + [UserAuthSuccess])
  {
    ExampleLookups();
    var lists := [["password"], ["keyboard-interactive"]];
    assert CompletedBy(lists[0], Some("password"));
    assert PopAll(lists, Some("password")) == [[], ["keyboard-interactive"]];
  }

  // -------------------------------------------------------------- the class

  /** The method lists as the constructor builds them. */
  method ParseMethods(names: seq<string>, config: Option<string>) returns (lists: seq<seq<string>>)
    ensures lists == ConfiguredMethods(names, config)
  {
    if config.None? || config.value == [] {
      lists := FactoryLists(names);
    } else {
      var fields := JavaSplit(config.value, Whitespace);
      lists := ChainLists(fields);
    }
  }

  /** One list per factory name, built in order. */
  method FactoryLists(names: seq<string>) returns (lists: seq<seq<string>>)
    ensures lists == SingletonLists(names)
  {
    lists := [];
    for i := 0 to |names|
      invariant |lists| == i
      invariant forall k :: 0 <= k < i ==> lists[k] == [names[k]]
    {
      lists := lists + [[names[i]]];
    }
  }

  /** One list per configured field, split at commas, built in order. */
  method ChainLists(fields: seq<string>) returns (lists: seq<seq<string>>)
    ensures lists == CommaLists(fields)
  {
    lists := [];
    for i := 0 to |fields|
      invariant lists == CommaLists(fields)[..i]
    {
      assert CommaLists(fields)[..i + 1] == CommaLists(fields)[..i] + [CommaLists(fields)[i]];
      lists := lists + [GenericSplit(fields[i], ',')];
    }
    assert CommaLists(fields)[..|fields|] == CommaLists(fields);
  }

  /** The constructor's check: the first configured method, in order, that
      selects no factory. */
  method CheckMethods(lists: seq<seq<string>>, names: seq<string>) returns (bad: Option<string>)
    ensures bad == FirstUnsupported(lists, names)
  {
    var i := 0;
    while i < |lists|
      invariant 0 <= i <= |lists|
      invariant FirstUnsupported(lists, names) == FirstUnsupported(lists[i..], names)
    {
      var l := lists[i];
      var j := 0;
      while j < |l|
        invariant 0 <= j <= |l|
        invariant FirstUnsupportedIn(l, names) == FirstUnsupportedIn(l[j..], names)
      {
        var factory := FindByName(l[j], names);
        if factory.None? {
          assert lists[i..][0] == l;
          return Some(l[j]);
        }
        assert l[j..][1..] == l[j + 1..];
        j := j + 1;
      }
      assert lists[i..][0] == l && lists[i..][1..] == lists[i + 1..];
      i := i + 1;
    }
    return None;
  }

  /** The `StringBuilder` loop of both replies. */
  method RemainingMethods(lists: seq<seq<string>>, skipNone: bool) returns (remaining: string)
    ensures remaining == BuildList(Heads(lists, skipNone))
  {
    remaining := [];
    for i := 0 to |lists|
      invariant remaining == BuildList(Heads(lists[..i], skipNone))
    {
      var l := lists[i];
      assert lists[..i + 1][..i] == lists[..i] && lists[..i + 1][i] == l;
      ghost var before := Heads(lists[..i], skipNone);
      assert Heads(lists[..i + 1], skipNone) == before + HeadOf(l, skipNone);
      if |l| > 0 && !(skipNone && l[0] == NoneMethod) {
        var m := l[0];
        assert (before + [m])[..|before|] == before && (before + [m])[|before|] == m;
        if |remaining| > 0 {
          remaining := remaining + [','];
        }
        remaining := remaining + m;
      } else {
        assert before + HeadOf(l, skipNone) == before;
      }
    }
    assert lists[..|lists|] == lists;
  }

  class AsyncUserAuthService {
    const factoryNames: seq<string>
    const maxAuthRequests: int
    const configured: seq<seq<string>>
    var authMethods: seq<seq<string>>
    var authUserName: Option<string>
    var authService: Option<string>
    var authMethod: Option<string>
    var currentAuth: Option<string>
    var nbAuthRequests: int
    var disconnected: bool
    var authenticated: bool
    var startedService: Option<string>
    var sent: seq<Packet>

    function State(): AuthState
      reads this
    {
      AuthState(factoryNames, maxAuthRequests, configured, authMethods, authUserName, authService,
                authMethod, currentAuth, nbAuthRequests, disconnected, authenticated, startedService, sent)
    }

    ghost predicate Valid()
      reads this
    {
      State().Valid()
    }

    constructor (names: seq<string>, maxAuthRequests: int, lists: seq<seq<string>>)
      ensures Valid() && State() == Initial(names, maxAuthRequests, lists)
    {
      factoryNames := names;
      this.maxAuthRequests := maxAuthRequests;
      configured := lists;
      authMethods := lists;
      authUserName := None;
      authService := None;
      authMethod := None;
      currentAuth := None;
      nbAuthRequests := 0;
      disconnected := false;
      authenticated := false;
      startedService := None;
      sent := [];
    }

    /** Handles one message; an illegal state is reported and changes
        nothing. */
    method Process(msg: Message, outcome: Outcome) returns (error: Option<Error>)
      requires Valid()
      modifies this
      ensures Valid()
      ensures error.None? ==> ProcessMessage(old(State()), msg, outcome) == Ok(State())
      ensures error.Some? ==> ProcessMessage(old(State()), msg, outcome) == Err(error.value) && State() == old(State())
    {
      ProcessKeepsValid(State(), msg, outcome);
      match msg
      case Request(user, service, m) =>
        ProcessRequest(user, service, m, outcome);
        return None;
      case Continue(_) =>
        if currentAuth.None? {
          return Some(NoCurrentAuthentication);
        }
        Dispatch(outcome);
        return None;
    }

    method ProcessRequest(user: string, service: string, m: string, outcome: Outcome)
      modifies this
      ensures State() == HandleRequest(old(State()), user, service, m, outcome)
    {
      ghost var s0 := old(State()).(currentAuth := None);
      currentAuth := None;
      if authUserName.None? || authService.None? {
        authUserName := Some(user);
        authService := Some(service);
        assert State() == s0.(authUserName := Some(user), authService := Some(service));
        assert HandleRequest(old(State()), user, service, m, outcome) == Attempt(State(), m, outcome);
        TryMethod(m, outcome);
      } else if authUserName.value == user && authService.value == service {
        assert HandleRequest(old(State()), user, service, m, outcome) == Repeated(State(), m, outcome);
        RepeatRequest(m, outcome);
      } else {
        disconnected := true;
      }
    }

    /** A request repeated for the same user and service: counted, and
        either refused with a disconnection or tried. */
    method RepeatRequest(m: string, outcome: Outcome)
      modifies this
      ensures State() == Repeated(old(State()), m, outcome)
    {
      var count := nbAuthRequests;
      nbAuthRequests := nbAuthRequests + 1;
      if count > maxAuthRequests {
        disconnected := true;
      } else {
        TryMethod(m, outcome);
      }
    }

    /** Selects the factory of the requested method and lets its
        authenticator's outcome decide. */
    method TryMethod(m: string, outcome: Outcome)
      modifies this
      ensures State() == Attempt(old(State()), m, outcome)
    {
      authMethod := Some(m);
      var factory := FindByName(m, factoryNames);
      var authed := Rejected;
      if factory.Some? {
        currentAuth := Some(factoryNames[factory.value]);
        authed := outcome;
      }
      Dispatch(authed);
    }

    method Dispatch(outcome: Outcome)
      modifies this
      ensures State() == Conclude(old(State()), outcome)
    {
      match outcome
      case InProgress =>
      case Authenticated => HandleSuccess();
      case Rejected => HandleFailure();
    }

    /** Takes the method in progress off the head of every chain it heads,
        in place, and reports whether that used a chain up. */
    method PopHeads() returns (success: bool)
      modifies this
      ensures State() == old(State()).(authMethods := PopAll(old(authMethods), authMethod))
      ensures success == Completes(old(authMethods), authMethod)
    {
      ghost var lists0 := authMethods;
      success := false;
      var i := 0;
      while i < |authMethods|
        invariant |authMethods| == |lists0| && 0 <= i <= |lists0|
        invariant forall k :: 0 <= k < i ==> authMethods[k] == PopHead(lists0[k], authMethod)
        invariant forall k :: i <= k < |lists0| ==> authMethods[k] == lists0[k]
        invariant success <==> exists k :: 0 <= k < i && CompletedBy(lists0[k], authMethod)
        invariant State() == old(State()).(authMethods := authMethods)
      {
        var l := authMethods[i];
        if |l| > 0 && authMethod == Some(l[0]) {
          authMethods := authMethods[i := l[1..]];
          success := success || l[1..] == [];
        }
        i := i + 1;
      }
      assert authMethods == PopAll(lists0, authMethod);
    }

    /** The method in progress succeeded: the chains are popped, then the
        user is authenticated or told what can continue. */
    method HandleSuccess()
      modifies this
      ensures State() == Success(old(State()))
    {
      var success := PopHeads();
      if success {
        sent := sent + [UserAuthSuccess];
        authenticated := true;
        startedService := authService;
      } else {
        var remaining := RemainingMethods(authMethods, false);
        sent := sent + [UserAuthFailure(remaining, true)];
      }
      currentAuth := None;
    }

    method HandleFailure()
      modifies this
      ensures State() == Failure(old(State()))
    {
      var remaining := RemainingMethods(authMethods, true);
      sent := sent + [UserAuthFailure(remaining, false)];
      currentAuth := None;
    }
  }

  /** The constructor: the session must not be authenticated, there must be
      factories, and every configured method must select one. */
  method Create(sessionAuthenticated: bool, maxAuthRequests: int, names: seq<string>, config: Option<string>)
    returns (r: Result<AsyncUserAuthService>)
    ensures var spec := Construct(sessionAuthenticated, maxAuthRequests, names, config);
      (r.Ok? <==> spec.Ok?) && (r.Err? ==> r.error == spec.error)
    ensures r.Ok? ==> (fresh(r.value) && r.value.Valid()
      && r.value.State() == Construct(sessionAuthenticated, maxAuthRequests, names, config).value)
  {
    if sessionAuthenticated {
      return Err(SessionAlreadyAuthenticated);
    }
    if names == [] {
      return Err(NoUserAuthFactories);
    }
    var lists := ParseMethods(names, config);
    var bad := CheckMethods(lists, names);
    if bad.Some? {
      return Err(UnsupportedMethod(bad.value));
    }
    var service := new AsyncUserAuthService(names, maxAuthRequests, lists);
    return Ok(service);
  }
}
