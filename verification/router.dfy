/** worker/src/router.js: the route table keyed by `METHOD:path`, the
    exact-key lookup, the fallback pattern match for routes with `:name`
    segments, parameter extraction, and the middleware chain built around
    the handler. The router is generic in what a handler and a middleware
    are; the worker's own are interpreted elsewhere. */
module Router {
  import opened Base
  import opened Http
  import opened Errors

  datatype Route<H, M> = Route(handler: H, middlewares: seq<M>)

  datatype Entry<H, M> = Entry(key: string, route: Route<H, M>)

  /** `this.routes` (an object, so its keys keep insertion order) and
      `this.middlewares`. */
  datatype Router<H, M> = Router(routes: seq<Entry<H, M>>, middlewares: seq<M>)

  /** What `addRoute` guarantees of the table: every key holds the `:` it
      puts between method and path, and no key occurs twice. */
  predicate WellFormed<H, M>(r: Router<H, M>) {
    && (forall k :: 0 <= k < |r.routes| ==> ':' in r.routes[k].key)
    && (forall i, j :: 0 <= i < j < |r.routes| ==> r.routes[i].key != r.routes[j].key)
  }

  function NewRouter<H, M>(): (r: Router<H, M>)
    ensures WellFormed(r) && r.routes == [] && r.middlewares == []
  {
    Router([], [])
  }

  /** `${method.toUpperCase()}:${path}`. */
  function Key(verb: string, path: string): (k: string)
    ensures ':' in k
  {
    assert (Upper(verb) + ":" + path)[|verb|] == ':';
    Upper(verb) + ":" + path
  }

  /** The position of `key` in the table. */
  function Position<H, M>(routes: seq<Entry<H, M>>, key: string): (i: Option<nat>)
    ensures i.Some? ==> i.value < |routes| && routes[i.value].key == key
    ensures i.Some? ==> forall k :: 0 <= k < i.value ==> routes[k].key != key
    ensures i.None? ==> forall k :: 0 <= k < |routes| ==> routes[k].key != key
    decreases |routes|
  {
    if |routes| == 0 then None
    else if routes[0].key == key then Some(0)
    else
      match Position(routes[1..], key)
      case None => None
      case Some(i) => Some(i + 1)
  }

  /** `this.routes[key]`. */
  function Lookup<H, M>(r: Router<H, M>, key: string): Option<Route<H, M>> {
    match Position(r.routes, key)
    case None => None
    case Some(i) => Some(r.routes[i].route)
  }

  function Keys<H, M>(r: Router<H, M>): (ks: seq<string>)
    ensures |ks| == |r.routes|
    ensures forall k :: 0 <= k < |ks| ==> ks[k] == r.routes[k].key
  {
    seq(|r.routes|, k requires 0 <= k < |r.routes| => r.routes[k].key)
  }

  /** `addRoute(path, method, handler, middlewares = [])`: assigning an
      existing key replaces its route in place, a new key goes last. */
  function AddRoute<H, M>(r: Router<H, M>, path: string, verb: string, handler: H,
                          middlewares: seq<M> := []): (r': Router<H, M>)
    ensures WellFormed(r) ==> WellFormed(r')
    ensures Lookup(r', Key(verb, path)) == Some(Route(handler, middlewares))
    ensures forall other :: other != Key(verb, path) ==> Lookup(r', other) == Lookup(r, other)
    ensures Keys(r') == if Key(verb, path) in Keys(r) then Keys(r) else Keys(r) + [Key(verb, path)]
    ensures Key(verb, path) !in Keys(r) ==> r'.routes == r.routes + [Entry(Key(verb, path), Route(handler, middlewares))]
    ensures r'.middlewares == r.middlewares
  {
    var key := Key(verb, path);
    var entry := Entry(key, Route(handler, middlewares));
    match Position(r.routes, key)
    case Some(i) =>
      var r' := r.(routes := r.routes[i := entry]);
      assert key in Keys(r) by { assert Keys(r)[i] == key; }
      assert Keys(r') == Keys(r);
      forall other | other != key
        ensures Lookup(r', other) == Lookup(r, other)
      {
        PositionAfterUpdate(r.routes, i, entry, other);
      }
      r'
    case None =>
      var r' := r.(routes := r.routes + [entry]);
      assert key !in Keys(r);
      assert Keys(r') == Keys(r) + [key];
      assert Position(r'.routes, key) == Some(|r.routes|) by {
        PositionAfterAppend(r.routes, entry, key);
      }
      forall other | other != key
        ensures Lookup(r', other) == Lookup(r, other)
      {
        PositionAfterAppend(r.routes, entry, other);
      }
      r'
  }

  lemma {:induction false} PositionAfterUpdate<H, M>(routes: seq<Entry<H, M>>, i: nat, e: Entry<H, M>, other: string)
    requires i < |routes| && routes[i].key == e.key && e.key != other
    ensures Position(routes[i := e], other) == Position(routes, other)
    ensures Position(routes[i := e], other).Some? ==> routes[i := e][Position(routes, other).value] == routes[Position(routes, other).value]
    decreases |routes|
  {
    if i > 0 {
      assert routes[i := e][1..] == routes[1..][i - 1 := e];
      PositionAfterUpdate(routes[1..], i - 1, e, other);
    }
  }

  lemma {:induction false} PositionAfterAppend<H, M>(routes: seq<Entry<H, M>>, e: Entry<H, M>, key: string)
    ensures Position(routes, key).Some? ==> Position(routes + [e], key) == Position(routes, key)
    ensures Position(routes, key).None? ==> Position(routes + [e], key) == if e.key == key then Some(|routes|) else None
    decreases |routes|
  {
    if |routes| > 0 {
      assert (routes + [e])[1..] == routes[1..] + [e];
      PositionAfterAppend(routes[1..], e, key);
    }
  }

  /** One `router.METHOD(path, handler)` call of a route table, with no
      route middlewares. */
  datatype Registration<H> = Registration(verb: string, path: string, handler: H)

  function Entries<H, M>(regs: seq<Registration<H>>): (es: seq<Entry<H, M>>)
    ensures |es| == |regs|
    ensures forall i :: 0 <= i < |regs| ==> es[i] == Entry(Key(regs[i].verb, regs[i].path), Route(regs[i].handler, []))
  {
    seq(|regs|, i requires 0 <= i < |regs| => Entry(Key(regs[i].verb, regs[i].path), Route(regs[i].handler, [])))
  }

  /** The registrations applied in order. */
  function AddAll<H, M>(r: Router<H, M>, regs: seq<Registration<H>>): (r': Router<H, M>)
    ensures WellFormed(r) ==> WellFormed(r')
    ensures r'.middlewares == r.middlewares
    decreases |regs|
  {
    if |regs| == 0 then r
    else AddAll(AddRoute(r, regs[0].path, regs[0].verb, regs[0].handler), regs[1..])
  }

  /** Registering fresh, pairwise distinct keys appends one entry per
      registration, in registration order. */
  lemma {:induction false} AddAllFresh<H, M>(r: Router<H, M>, regs: seq<Registration<H>>)
    requires forall i :: 0 <= i < |regs| ==> Key(regs[i].verb, regs[i].path) !in Keys(r)
    requires forall i, j :: 0 <= i < j < |regs| ==> Key(regs[i].verb, regs[i].path) != Key(regs[j].verb, regs[j].path)
    ensures AddAll(r, regs).routes == r.routes + Entries(regs)
    decreases |regs|
  {
    if |regs| > 0 {
      var reg := regs[0];
      var r1 := AddRoute(r, reg.path, reg.verb, reg.handler);
      FreshAfterFirst(r, regs);
      AddAllFresh(r1, regs[1..]);
      assert AddAll(r, regs) == AddAll(r1, regs[1..]);
      var es: seq<Entry<H, M>> := Entries(regs);
      assert r1.routes == r.routes + [es[0]];
      EntriesCons<H, M>(regs);
      AppendAssociates(r.routes, [es[0]], Entries<H, M>(regs[1..]));
    }
  }

  /** After the first registration of fresh, distinct keys, the rest are
      still fresh and distinct. */
  lemma FreshAfterFirst<H, M>(r: Router<H, M>, regs: seq<Registration<H>>)
    requires |regs| > 0
    requires forall i :: 0 <= i < |regs| ==> Key(regs[i].verb, regs[i].path) !in Keys(r)
    requires forall i, j :: 0 <= i < j < |regs| ==> Key(regs[i].verb, regs[i].path) != Key(regs[j].verb, regs[j].path)
    ensures var r1 := AddRoute(r, regs[0].path, regs[0].verb, regs[0].handler);
      && r1.routes == r.routes + [Entry(Key(regs[0].verb, regs[0].path), Route(regs[0].handler, []))]
      && forall i :: 0 <= i < |regs[1..]| ==> Key(regs[1..][i].verb, regs[1..][i].path) !in Keys(r1)
    ensures forall i, j :: 0 <= i < j < |regs[1..]| ==> Key(regs[1..][i].verb, regs[1..][i].path) != Key(regs[1..][j].verb, regs[1..][j].path)
  {
    var reg := regs[0];
    var r1 := AddRoute(r, reg.path, reg.verb, reg.handler);
    assert Keys(r1) == Keys(r) + [Key(reg.verb, reg.path)];
    var rest := regs[1..];
    forall i | 0 <= i < |rest| ensures Key(rest[i].verb, rest[i].path) !in Keys(r1) {
      assert rest[i] == regs[i + 1];
    }
    forall i, j | 0 <= i < j < |rest| ensures Key(rest[i].verb, rest[i].path) != Key(rest[j].verb, rest[j].path) {
      assert rest[i] == regs[i + 1] && rest[j] == regs[j + 1];
    }
  }

  lemma EntriesCons<H, M>(regs: seq<Registration<H>>)
    requires |regs| > 0
    ensures Entries<H, M>(regs) == [Entries<H, M>(regs)[0]] + Entries<H, M>(regs[1..])
  {
    var es: seq<Entry<H, M>> := Entries(regs);
    var tail: seq<Entry<H, M>> := Entries(regs[1..]);
    forall i | 0 <= i < |tail| ensures tail[i] == es[i + 1] {
      assert regs[1..][i] == regs[i + 1];
    }
  }

  lemma AppendAssociates<T>(a: seq<T>, b: seq<T>, c: seq<T>)
    ensures (a + b) + c == a + (b + c)
  {
  }

  /** A method without lower-case letters is its own key prefix. */
  lemma KeyOfUpper(verb: string, path: string)
    requires forall k :: 0 <= k < |verb| ==> !('a' <= verb[k] <= 'z')
    ensures Key(verb, path) == verb + ":" + path
  {
    assert Upper(verb) == verb;
  }

  function Get<H, M>(r: Router<H, M>, path: string, handler: H, middlewares: seq<M> := []): (r': Router<H, M>)
    ensures WellFormed(r) ==> WellFormed(r')
    ensures Lookup(r', "GET:" + path) == Some(Route(handler, middlewares))
  {
    KeyOfUpper("GET", path);
    assert Key("GET", path) == "GET:" + path;
    AddRoute(r, path, "GET", handler, middlewares)
  }

  function Post<H, M>(r: Router<H, M>, path: string, handler: H, middlewares: seq<M> := []): (r': Router<H, M>)
    ensures WellFormed(r) ==> WellFormed(r')
    ensures Lookup(r', "POST:" + path) == Some(Route(handler, middlewares))
  {
    KeyOfUpper("POST", path);
    assert Key("POST", path) == "POST:" + path;
    AddRoute(r, path, "POST", handler, middlewares)
  }

  function Put<H, M>(r: Router<H, M>, path: string, handler: H, middlewares: seq<M> := []): (r': Router<H, M>)
    ensures WellFormed(r) ==> WellFormed(r')
    ensures Lookup(r', "PUT:" + path) == Some(Route(handler, middlewares))
  {
    KeyOfUpper("PUT", path);
    assert Key("PUT", path) == "PUT:" + path;
    AddRoute(r, path, "PUT", handler, middlewares)
  }

  function Delete<H, M>(r: Router<H, M>, path: string, handler: H, middlewares: seq<M> := []): (r': Router<H, M>)
    ensures WellFormed(r) ==> WellFormed(r')
    ensures Lookup(r', "DELETE:" + path) == Some(Route(handler, middlewares))
  {
    KeyOfUpper("DELETE", path);
    assert Key("DELETE", path) == "DELETE:" + path;
    AddRoute(r, path, "DELETE", handler, middlewares)
  }

  /** `use(middleware)`: appended to the global list; routes untouched. */
  function Use<H, M>(r: Router<H, M>, m: M): (r': Router<H, M>)
    ensures WellFormed(r) ==> WellFormed(r')
    ensures r'.routes == r.routes && r'.middlewares == r.middlewares + [m]
  {
    r.(middlewares := r.middlewares + [m])
  }

  // ---------------------------------------------------------------------
  // route patterns

  /** A compiled route path: a literal character, or the capture group
      `([^/]+)` a `:name` segment is rewritten to. */
  datatype Token = Lit(c: char) | Group

  /** Length of the leading run of characters other than `/`. */
  function SegmentLength(s: string): (n: nat)
    ensures n <= |s|
    ensures forall k :: 0 <= k < n ==> s[k] != '/'
    ensures n < |s| ==> s[n] == '/'
    decreases |s|
  {
    if |s| == 0 || s[0] == '/' then 0 else 1 + SegmentLength(s[1..])
  }

  /** `routePath.replace(/:[^/]+/g, '([^/]+)')`: every `:` followed by at
      least one character other than `/` starts a group that runs to the
      next `/` or the end; any other character stands for itself (the
      escaping of `/` that follows changes nothing in this reading). */
  function Compile(path: string): (t: seq<Token>)
    decreases |path|
  {
    if |path| == 0 then []
    else if path[0] == ':' && |path| > 1 && path[1] != '/' then
      [Group] + Compile(path[1 + SegmentLength(path[1..])..])
    else [Lit(path[0])] + Compile(path[1..])
  }

  /** `new RegExp('^' + pattern + '$').test(s)`, as the regular expression
      defines it: a group matches any non-empty run without `/`. */
  ghost predicate RegexMatch(t: seq<Token>, s: string)
    decreases |t|
  {
    if |t| == 0 then |s| == 0
    else match t[0]
      case Lit(c) => |s| > 0 && s[0] == c && RegexMatch(t[1..], s[1..])
      case Group => exists n :: 1 <= n <= |s| && '/' !in s[..n] && RegexMatch(t[1..], s[n..])
  }

  /** The same test as a left-to-right scan: a group takes the whole run up
      to the next `/`. */
  predicate Matches(t: seq<Token>, s: string)
    decreases |t|
  {
    if |t| == 0 then |s| == 0
    else match t[0]
      case Lit(c) => |s| > 0 && s[0] == c && Matches(t[1..], s[1..])
      case Group => SegmentLength(s) > 0 && Matches(t[1..], s[SegmentLength(s)..])
  }

  /** Every group of a compiled path ends the pattern or is followed by a
      literal `/`, so a group can only ever end where the scan ends it. */
  predicate GroupsEndAtSlash(t: seq<Token>) {
    forall k :: 0 <= k < |t| && t[k] == Group ==> k + 1 == |t| || t[k + 1] == Lit('/')
  }

  lemma {:induction false} CompileGroupsEndAtSlash(path: string)
    ensures GroupsEndAtSlash(Compile(path))
    decreases |path|
  {
    if |path| > 0 {
      if path[0] == ':' && |path| > 1 && path[1] != '/' {
        var rest := path[1 + SegmentLength(path[1..])..];
        CompileGroupsEndAtSlash(rest);
        assert |rest| > 0 ==> rest[0] == '/' && Compile(rest)[0] == Lit('/');
        var t := [Group] + Compile(rest);
        forall k | 0 <= k < |t| && t[k] == Group
          ensures k + 1 == |t| || t[k + 1] == Lit('/')
        {
          if k > 0 {
            assert t[k] == Compile(rest)[k - 1];
          }
        }
      } else {
        CompileGroupsEndAtSlash(path[1..]);
        var t := [Lit(path[0])] + Compile(path[1..]);
        forall k | 0 <= k < |t| && t[k] == Group
          ensures k + 1 == |t| || t[k + 1] == Lit('/')
        {
          assert t[k] == Compile(path[1..])[k - 1];
        }
      }
    }
  }

  lemma {:induction false} GroupsEndAtSlashTail(t: seq<Token>)
    requires |t| > 0 && GroupsEndAtSlash(t)
    ensures GroupsEndAtSlash(t[1..])
  {
    forall k | 0 <= k < |t[1..]| && t[1..][k] == Group
      ensures k + 1 == |t[1..]| || t[1..][k + 1] == Lit('/')
    {
      assert t[k + 1] == Group;
    }
  }

  /** On a compiled path the scan decides exactly what the regular
      expression decides. */
  lemma {:induction false} ScanDecidesRegex(t: seq<Token>, s: string)
    requires GroupsEndAtSlash(t)
    ensures Matches(t, s) <==> RegexMatch(t, s)
    decreases |t|
  {
    if |t| > 0 {
      GroupsEndAtSlashTail(t);
      match t[0]
      case Lit(c) =>
        if |s| > 0 {
          ScanDecidesRegex(t[1..], s[1..]);
        }
      case Group =>
        var n := SegmentLength(s);
        if Matches(t, s) {
          ScanDecidesRegex(t[1..], s[n..]);
          assert '/' !in s[..n] by {
            forall k | 0 <= k < n ensures s[..n][k] != '/' { }
          }
        }
        if RegexMatch(t, s) {
          var m :| 1 <= m <= |s| && '/' !in s[..m] && RegexMatch(t[1..], s[m..]);
          RegexGroupWidth(t, s, m);
          ScanDecidesRegex(t[1..], s[m..]);
        }
    }
  }

  /** A group that the regular expression lets end at `m` ends exactly
      where the scan ends it. */
  lemma RegexGroupWidth(t: seq<Token>, s: string, m: nat)
    requires |t| > 0 && t[0] == Group && GroupsEndAtSlash(t)
    requires 1 <= m <= |s| && '/' !in s[..m] && RegexMatch(t[1..], s[m..])
    ensures SegmentLength(s) == m
  {
    forall k | 0 <= k < m ensures s[k] != '/' {
      assert s[k] == s[..m][k];
    }
    if m < |s| {
      assert |s[m..]| > 0;
      assert |t| > 1;
      assert t[1] == Lit('/');
      assert s[m..][0] == '/';
    }
  }

  /** A route path without `:` compiles to itself: it matches exactly the
      request path equal to it. */
  lemma {:induction false} LiteralPathMatchesOnlyItself(path: string, s: string)
    requires ':' !in path
    ensures Matches(Compile(path), s) <==> s == path
    decreases |path|
  {
    if |path| > 0 {
      assert ':' !in path[1..];
      LiteralPathMatchesOnlyItself(path[1..], if |s| > 0 then s[1..] else s);
      if |s| > 0 {
        assert s == [s[0]] + s[1..];
        assert path == [path[0]] + path[1..];
      }
    }
  }

  /** The literal characters of a `:`-free prefix compile to themselves and
      are matched character by character. */
  lemma PrefixCompilesLiterally(prefix: string, rest: string, s: string)
    requires ':' !in prefix
    ensures Compile(prefix + rest) == seq(|prefix|, k requires 0 <= k < |prefix| => Lit(prefix[k])) + Compile(rest)
    ensures Matches(Compile(prefix + rest), prefix + s) <==> Matches(Compile(rest), s)
  {
    PrefixCompiles(prefix, rest);
    PrefixMatches(prefix, rest, s);
  }

  lemma {:induction false} PrefixCompiles(prefix: string, rest: string)
    requires ':' !in prefix
    ensures Compile(prefix + rest) == seq(|prefix|, k requires 0 <= k < |prefix| => Lit(prefix[k])) + Compile(rest)
    decreases |prefix|
  {
    if |prefix| > 0 {
      assert (prefix + rest)[1..] == prefix[1..] + rest;
      assert ':' !in prefix[1..];
      PrefixCompiles(prefix[1..], rest);
      var lits := seq(|prefix|, k requires 0 <= k < |prefix| => Lit(prefix[k]));
      assert lits == [Lit(prefix[0])] + seq(|prefix[1..]|, k requires 0 <= k < |prefix[1..]| => Lit(prefix[1..][k]));
    } else {
      assert prefix + rest == rest;
    }
  }

  lemma {:induction false} PrefixMatches(prefix: string, rest: string, s: string)
    requires ':' !in prefix
    ensures Matches(Compile(prefix + rest), prefix + s) <==> Matches(Compile(rest), s)
    decreases |prefix|
  {
    if |prefix| > 0 {
      assert (prefix + rest)[1..] == prefix[1..] + rest;
      assert (prefix + s)[1..] == prefix[1..] + s;
      assert ':' !in prefix[1..];
      var t := Compile(prefix + rest);
      assert t == [Lit(prefix[0])] + Compile(prefix[1..] + rest);
      assert t[1..] == Compile(prefix[1..] + rest);
      PrefixMatches(prefix[1..], rest, s);
    } else {
      assert prefix + rest == rest;
      assert prefix + s == s;
    }
  }

  lemma {:induction false} SegmentOfSlashFree(s: string)
    requires '/' !in s
    ensures SegmentLength(s) == |s|
    decreases |s|
  {
    if |s| > 0 {
      assert s[0] != '/' && '/' !in s[1..];
      SegmentOfSlashFree(s[1..]);
    }
  }

  /** A route path ending in one `:name` segment matches every request path
      that puts a non-empty, slash-free segment in its place. */
  lemma ParamSegmentMatches(prefix: string, name: string, segment: string)
    requires ':' !in prefix && |name| > 0 && '/' !in name && |segment| > 0 && '/' !in segment
    ensures Matches(Compile(prefix + ":" + name), prefix + segment)
  {
    assert prefix + ":" + name == prefix + (":" + name);
    PrefixCompilesLiterally(prefix, ":" + name, segment);
    var p := ":" + name;
    assert p[1..] == name;
    SegmentOfSlashFree(name);
    assert p[1 + |name|..] == [];
    assert Compile(p) == [Group];
    SegmentOfSlashFree(segment);
    assert segment[|segment|..] == [];
  }

  // ---------------------------------------------------------------------
  // route-key pieces and matching

  /** `key.split(':')[0]`, the method part of a key. */
  function RouteMethod(key: string): string {
    Split(key, ':')[0]
  }

  /** A key with a `:` splits into at least two pieces. */
  lemma KeyHasTwoPieces(key: string)
    requires ':' in key
    ensures |Split(key, ':')| >= 2
  {
    OccurrencesZero(key, ':');
  }

  /** `key.split(':')[1]` as written: the text between the first and the
      second `:`, so a key whose path holds `:name` loses everything from
      that `:` on. */
  function RoutePathAsWritten(key: string): (p: string)
    requires ':' in key
    ensures ':' !in p
  {
    KeyHasTwoPieces(key);
    SplitPiecesAreSeparatorFree(key, ':');
    Split(key, ':')[1]
  }

  /** The path as registered: everything after the first `:`. */
  function RoutePathCorrected(key: string): (p: string)
    requires ':' in key
  {
    var i := FirstColon(key);
    key[i + 1..]
  }

  function FirstColon(s: string): (i: nat)
    requires ':' in s
    ensures i < |s| && s[i] == ':'
    ensures forall k :: 0 <= k < i ==> s[k] != ':'
    decreases |s|
  {
    if s[0] == ':' then 0
    else
      assert ':' in s[1..] by {
        var j :| 0 <= j < |s| && s[j] == ':';
        assert s[1..][j - 1] == ':';
      }
      1 + FirstColon(s[1..])
  }

  function RoutePath(key: string, build: Build): string
    requires ':' in key
  {
    match build
    case AsWritten => RoutePathAsWritten(key)
    case Corrected => RoutePathCorrected(key)
  }

  /** The corrected reading recovers the path a key was registered with,
      for any method name without `:`. */
  lemma RoutePathOfKey(verb: string, path: string)
    requires ':' !in verb
    ensures RoutePathCorrected(Key(verb, path)) == path
    ensures RouteMethod(Key(verb, path)) == Upper(verb)
  {
    var u := Upper(verb);
    assert ':' !in u by {
      forall k | 0 <= k < |u| ensures u[k] != ':' {
        assert verb[k] != ':';
      }
    }
    var key := Key(verb, path);
    assert key == u + [':'] + path;
    assert key[|u|] == ':';
    assert forall k :: 0 <= k < |u| ==> key[k] == u[k] && u[k] != ':';
    assert FirstColon(key) == |u|;
    assert key[|u| + 1..] == path;
    SplitAfterFirst(u, ':', path);
  }

  /** As written, the key of a route registered as `prefix:name` keeps only
      `prefix`: the parameter and the `:` before it are cut off. */
  lemma AsWrittenDropsParam(verb: string, prefix: string, name: string)
    requires ':' !in verb && ':' !in prefix && ':' !in name
    ensures RoutePathAsWritten(Key(verb, prefix + ":" + name)) == prefix
    ensures RouteMethod(Key(verb, prefix + ":" + name)) == Upper(verb)
  {
    var u := Upper(verb);
    assert ':' !in u by {
      forall k | 0 <= k < |u| ensures u[k] != ':' {
        assert verb[k] != ':';
      }
    }
    var rest := prefix + ":" + name;
    assert Key(verb, rest) == u + [':'] + rest;
    SplitAfterFirst(u, ':', rest);
    assert rest == prefix + [':'] + name;
    SplitAround(prefix, ':', name);
    SplitOfSeparatorFree(prefix, ':');
    SplitOfSeparatorFree(name, ':');
  }

  /** `matchRoute(path, method)`: the first entry, in table order, whose key
      has the method before its first `:` and whose path pattern matches. */
  function MatchRoute<H, M>(routes: seq<Entry<H, M>>, path: string, verb: string, build: Build): (m: Option<(string, Route<H, M>)>)
    requires forall k :: 0 <= k < |routes| ==> ':' in routes[k].key
    ensures m.Some? ==> exists i :: 0 <= i < |routes| && Candidate(routes, i, path, verb, build)
                          && m.value == (RoutePath(routes[i].key, build), routes[i].route)
                          && forall j :: 0 <= j < i ==> !Candidate(routes, j, path, verb, build)
    ensures m.None? ==> forall i :: 0 <= i < |routes| ==> !Candidate(routes, i, path, verb, build)
    decreases |routes|
  {
    if |routes| == 0 then None
    else if RouteMethod(routes[0].key) == verb && Matches(Compile(RoutePath(routes[0].key, build)), path) then
      assert Candidate(routes, 0, path, verb, build);
      Some((RoutePath(routes[0].key, build), routes[0].route))
    else
      var m := MatchRoute(routes[1..], path, verb, build);
      assert forall i :: 1 <= i < |routes| ==> (Candidate(routes, i, path, verb, build) <==> Candidate(routes[1..], i - 1, path, verb, build));
      m
  }

  predicate Candidate<H, M>(routes: seq<Entry<H, M>>, i: int, path: string, verb: string, build: Build)
    requires 0 <= i < |routes| && ':' in routes[i].key
  {
    RouteMethod(routes[i].key) == verb && Matches(Compile(RoutePath(routes[i].key, build)), path)
  }

  // ---------------------------------------------------------------------
  // parameters

  /** Whether a route-path piece is the parameter `:name`. */
  predicate Names(part: string, name: string) {
    |part| >= 1 && part[0] == ':' && part[1..] == name
  }

  /** `pathParts[i]`, `undefined` past the end. */
  function At(parts: seq<string>, i: nat): Option<string> {
    if i < |parts| then Some(parts[i]) else None
  }

  /** The parameters the first `n` route pieces assign; a later piece with
      the same name overwrites an earlier one. */
  function ParamsUpTo(routeParts: seq<string>, pathParts: seq<string>, n: nat): (m: map<string, Option<string>>)
    requires n <= |routeParts|
    ensures forall name :: name in m <==> exists i :: 0 <= i < n && Names(routeParts[i], name)
    ensures forall i, name :: 0 <= i < n && Names(routeParts[i], name)
              && (forall j :: i < j < n ==> !Names(routeParts[j], name))
              ==> name in m && m[name] == At(pathParts, i)
    decreases n
  {
    if n == 0 then map[]
    else
      var m := ParamsUpTo(routeParts, pathParts, n - 1);
      var part := routeParts[n - 1];
      if StartsWith(part, ":") then
        assert Names(part, part[1..]);
        m[part[1..] := At(pathParts, n - 1)]
      else m
  }

  /** `extractParams(path, routePath)`. */
  function ExtractParams(path: string, routePath: string): (m: map<string, Option<string>>)
    ensures forall name :: name in m <==> IsParamName(routePath, name)
  {
    var rp := Split(routePath, '/');
    ParamsUpTo(rp, Split(path, '/'), |rp|)
  }

  /** Whether some piece of `routePath` is `:name`. */
  predicate IsParamName(routePath: string, name: string) {
    var rp := Split(routePath, '/');
    exists i :: 0 <= i < |rp| && Names(rp[i], name)
  }

  /** A route path `prefix/:name` assigns `name` the request's last
      segment, and nothing else. */
  lemma LastSegmentParam(prefix: string, name: string, segment: string)
    requires ':' !in prefix && '/' !in name && '/' !in segment
    ensures ExtractParams(prefix + "/" + segment, prefix + "/:" + name) == map[name := Some(segment)]
  {
    var q := Split(prefix, '/');
    assert prefix + "/:" + name == prefix + "/" + (":" + name);
    SplitLastPiece(prefix, ":" + name);
    SplitLastPiece(prefix, segment);
    SplitPiecesAvoid(prefix, '/', ':');
    forall i, other | 0 <= i < |q| ensures !Names(q[i], other) {
      if |q[i]| >= 1 {
        assert q[i][0] in q[i];
      }
    }
    ParamsOfLastPiece(q, name, segment);
  }

  /** `prefix/last` splits into the pieces of `prefix` and `last`. */
  lemma SplitLastPiece(prefix: string, last: string)
    requires '/' !in last
    ensures Split(prefix + "/" + last, '/') == Split(prefix, '/') + [last]
  {
    assert prefix + "/" + last == prefix + ['/'] + last;
    SplitAround(prefix, '/', last);
    SplitOfSeparatorFree(last, '/');
  }

  /** Route pieces that name no parameter, then `:name`, bind only `name`,
      to the path piece in the same place. */
  lemma ParamsOfLastPiece(q: seq<string>, name: string, segment: string)
    requires forall i, other :: 0 <= i < |q| ==> !Names(q[i], other)
    ensures ParamsUpTo(q + [":" + name], q + [segment], |q| + 1) == map[name := Some(segment)]
  {
    var rp := q + [":" + name];
    var pp := q + [segment];
    var m := ParamsUpTo(rp, pp, |rp|);
    assert (":" + name)[1..] == name;
    assert Names(rp[|q|], name);
    assert forall i :: 0 <= i < |q| ==> rp[i] == q[i];
    forall other | other in m ensures other == name {
      var i :| 0 <= i < |rp| && Names(rp[i], other);
    }
    assert m.Keys == {name};
    assert m[name] == At(pp, |q|);
  }

  // ---------------------------------------------------------------------
  // the middleware chain

  /** The function `applyMiddlewaresAndHandler` ends up calling: a
      middleware wrapped around the rest of the chain, or the handler
      wrapped by `withErrorHandling`. */
  datatype Chain<H, M> = Endpoint(handler: H) | Layer(middleware: M, next: Chain<H, M>)

  /** The middlewares of a chain, outermost first. */
  function Layers<H, M>(c: Chain<H, M>): seq<M> {
    match c
    case Endpoint(_) => []
    case Layer(m, next) => [m] + Layers(next)
  }

  function Core<H, M>(c: Chain<H, M>): H {
    match c
    case Endpoint(h) => h
    case Layer(_, next) => Core(next)
  }

  /** The chain with `ms[0]` outermost and the handler innermost. */
  function Nest<H, M>(ms: seq<M>, h: H): (c: Chain<H, M>)
    ensures Layers(c) == ms && Core(c) == h
    decreases |ms|
  {
    if |ms| == 0 then Endpoint(h) else Layer(ms[0], Nest(ms[1..], h))
  }

  /** The loop that wraps the handler from the last middleware to the first:
      the result is the chain with the first middleware outermost. */
  method ComposeChain<H, M>(all: seq<M>, h: H) returns (c: Chain<H, M>)
    ensures Layers(c) == all && Core(c) == h
    ensures c == Nest(all, h)
  {
    c := Endpoint(h);
    var i := |all|;
    while i > 0
      invariant 0 <= i <= |all|
      invariant c == Nest(all[i..], h)
    {
      i := i - 1;
      assert all[i..][1..] == all[i + 1..];
      c := Layer(all[i], c);
    }
  }

  /** What `handle` dispatches to: the 404 answer (no middleware runs), or
      the params it sets (`None` leaves `request.params` unset) and the
      chain it calls. */
  datatype Dispatch<H, M> = NoRoute(response: Response) | Found(params: Option<map<string, Option<string>>>, chain: Chain<H, M>)

  const RouteNotFound := "未找到路由"

  /** `handle(request, env)` up to calling the chain. */
  function Handle<H, M>(r: Router<H, M>, verb: string, path: string, build: Build): (d: Dispatch<H, M>)
    requires WellFormed(r)
    ensures Lookup(r, Key(verb, path)).Some? ==>
              var route := Lookup(r, Key(verb, path)).value;
              d == Found(None, Nest(r.middlewares + route.middlewares, route.handler))
    ensures d.NoRoute? <==> Lookup(r, Key(verb, path)).None? && MatchRoute(r.routes, path, Upper(verb), build).None?
    ensures d.NoRoute? ==> d.response == CreateErrorResponse(RouteNotFound, 404)
    ensures Lookup(r, Key(verb, path)).None? && d.Found? ==>
              var (routePath, route) := MatchRoute(r.routes, path, Upper(verb), build).value;
              d == Found(Some(ExtractParams(path, routePath)), Nest(r.middlewares + route.middlewares, route.handler))
  {
    match Lookup(r, Key(verb, path))
    case Some(route) => Found(None, Nest(r.middlewares + route.middlewares, route.handler))
    case None =>
      match MatchRoute(r.routes, path, Upper(verb), build)
      case None => NoRoute(CreateErrorResponse(RouteNotFound, 404))
      case Some((routePath, route)) =>
        Found(Some(ExtractParams(path, routePath)), Nest(r.middlewares + route.middlewares, route.handler))
  }

  /** The global middlewares run before the route's own, in registration
      order, and the handler runs last. */
  lemma ChainOrder<H, M>(r: Router<H, M>, verb: string, path: string, build: Build)
    requires WellFormed(r) && Handle(r, verb, path, build).Found?
    ensures var c := Handle(r, verb, path, build).chain;
      Layers(c)[..|r.middlewares|] == r.middlewares
  {
  }
}
