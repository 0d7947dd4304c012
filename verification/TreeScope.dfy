/** Checking literal source paths against a repository's trees (src/github_scope.rs). The
    tree reader is a function of the identity it is asked for. */
module TreeScope {
  import opened Prelude
  import opened Text

  const MAX_TREES := 16

  datatype Problem =
    | BadIdentity
    | TooManyTrees
    | FetchFailed(message: string)
    | Incomplete
    | BadListing
    | NotFound(path: string)
    | NotRegular(path: string)
    | NoFolderIdentity

  type Fetch = string -> Result<Json, string>

  // ---- One component ----------------------------------------------------------------

  predicate IsHex(c: char) {
    '0' <= c <= '9' || 'a' <= c <= 'f' || 'A' <= c <= 'F'
  }

  predicate IsIdentity(sha: string) {
    |sha| == 40 && forall i :: 0 <= i < |sha| ==> IsHex(sha[i])
  }

  function FindEntry(entries: seq<Json>, name: string): Option<Json> {
    if entries == [] then None
    else if Field(entries[0], "path") == JString(name) then Some(entries[0])
    else FindEntry(entries[1..], name)
  }

  predicate IsFolder(entry: Json) {
    Field(entry, "type") == JString("tree") && Field(entry, "mode") == JString("040000")
  }

  predicate IsFile(entry: Json) {
    && Field(entry, "type") == JString("blob")
    && (Field(entry, "mode") == JString("100644") || Field(entry, "mode") == JString("100755"))
  }

  /** The entry a tree lists under a name, when the listing is complete. */
  function Lookup(tree: Json, path: string, name: string): Result<Json, Problem> {
    if Field(tree, "truncated") != JBool(false) then Err(Incomplete)
    else if !Field(tree, "tree").JArray? then Err(BadListing)
    else match FindEntry(Field(tree, "tree").items, name)
      case None => Err(NotFound(path))
      case Some(entry) => Ok(entry)
  }

  /** The identity to look in next after a component, `sha` itself after a file. */
  function Enter(entry: Json, sha: string, path: string, final: bool): Result<string, Problem> {
    if (!IsFolder(entry) && !IsFile(entry)) || (!final && !IsFolder(entry)) then Err(NotRegular(path))
    else if !IsFolder(entry) then Ok(sha)
    else if Field(entry, "sha").JString? then Ok(Field(entry, "sha").s)
    else Err(NoFolderIdentity)
  }

  /** One component of a path, the tree fetched anew. */
  function Advance(fetch: Fetch, sha: string, path: string, name: string, final: bool): Result<string, Problem> {
    match fetch(sha)
    case Err(message) => Err(FetchFailed(message))
    case Ok(tree) =>
      match Lookup(tree, path, name)
      case Err(problem) => Err(problem)
      case Ok(entry) => Enter(entry, sha, path, final)
  }

  // ---- The walk without a cache ----------------------------------------------------------

  /** Which trees were read, in order, and what stopped the walk if anything did. */
  datatype Walk = Walk(trace: seq<string>, problem: Option<Problem>)

  function After(trace: seq<string>, walk: Walk): Walk {
    Walk(trace + walk.trace, walk.problem)
  }

  function WalkPath(fetch: Fetch, sha: string, path: string, parts: seq<string>): Walk
    decreases |parts|
  {
    if parts == [] then Walk([], None)
    else if !IsIdentity(sha) then Walk([], Some(BadIdentity))
    else match Advance(fetch, sha, path, parts[0], |parts| == 1)
      case Err(problem) => Walk([sha], Some(problem))
      case Ok(next) => After([sha], WalkPath(fetch, next, path, parts[1..]))
  }

  function Then(first: Walk, second: Walk): Walk {
    if first.problem.Some? then first else After(first.trace, second)
  }

  function SplitFrom(s: string, part: string): (parts: seq<string>)
    ensures parts != []
  {
    if s == "" then [part]
    else if s[0] == '/' then [part] + SplitFrom(s[1..], "")
    else SplitFrom(s[1..], part + [s[0]])
  }

  function Parts(path: string): seq<string> {
    if path == "." then [] else SplitFrom(path, "")
  }

  function WalkAll(fetch: Fetch, root: string, paths: seq<string>): Walk {
    if paths == [] then Walk([], None)
    else Then(WalkPath(fetch, root, paths[0], Parts(paths[0])), WalkAll(fetch, root, paths[1..]))
  }

  // ---- First occurrences --------------------------------------------------------------------

  /** The distinct elements of a sequence, in order of first appearance. */
  function Distinct(s: seq<string>): seq<string> {
    if s == [] then []
    else
      var init, last := s[..|s| - 1], s[|s| - 1];
      if last in init then Distinct(init) else Distinct(init) + [last]
  }

  predicate NoRepeats(s: seq<string>) {
    forall i, j :: 0 <= i < j < |s| ==> s[i] != s[j]
  }

  lemma {:induction false} DistinctElements(s: seq<string>)
    ensures NoRepeats(Distinct(s))
    ensures forall x :: x in Distinct(s) <==> x in s
  {
    if s != [] {
      var init, last := s[..|s| - 1], s[|s| - 1];
      DistinctElements(init);
      assert s == init + [last];
    }
  }

  lemma {:induction false} DistinctPrefix(a: seq<string>, b: seq<string>)
    ensures Distinct(a) <= Distinct(a + b)
  {
    if b == [] {
      assert a + b == a;
    } else {
      assert (a + b)[..|a + b| - 1] == a + b[..|b| - 1];
      DistinctPrefix(a, b[..|b| - 1]);
    }
  }

  lemma DistinctStep(s: seq<string>, x: string)
    ensures Distinct(s + [x]) == if x in s then Distinct(s) else Distinct(s) + [x]
  {
    assert (s + [x])[..|s|] == s;
  }

  function Cut(s: seq<string>): seq<string> {
    if |s| <= MAX_TREES then s else s[..MAX_TREES]
  }

  lemma CutFew(s: seq<string>)
    ensures NoRepeats(Cut(Distinct(s))) && |Cut(Distinct(s))| <= MAX_TREES
  {
    DistinctElements(s);
  }

  // ---- The memoised walk -----------------------------------------------------------------------

  /** Every tree in the cache is what the reader returns for its identity. */
  predicate Faithful(cache: map<string, Json>, fetch: Fetch) {
    forall sha :: sha in cache ==> fetch(sha) == Ok(cache[sha])
  }

  /** What the memoised walk must answer: the uncached walk's result, unless that walk
      reads more than `MAX_TREES` different trees. */
  function Verdict(walk: Walk): Option<Problem> {
    if |Distinct(walk.trace)| <= MAX_TREES then walk.problem else Some(TooManyTrees)
  }

  /** The memo after the trees in `done` have been looked in. */
  ghost predicate Memo(cache: map<string, Json>, fetched: seq<string>, done: seq<string>, fetch: Fetch) {
    && Faithful(cache, fetch) && (forall sha :: sha in cache <==> sha in done)
    && |cache| == |fetched| <= MAX_TREES && fetched == Distinct(done)
  }

  lemma AfterAgain(done: seq<string>, sha: string, walk: Walk)
    ensures After(done, After([sha], walk)) == After(done + [sha], walk)
  {
    assert done + ([sha] + walk.trace) == done + [sha] + walk.trace;
  }

  lemma AfterNothing(walk: Walk)
    ensures After([], walk) == walk
  {
    assert [] + walk.trace == walk.trace;
  }

  lemma ThenAfter(sha: string, first: Walk, second: Walk)
    ensures Then(After([sha], first), second) == After([sha], Then(first, second))
  {
    if first.problem.None? {
      assert [sha] + first.trace + second.trace == [sha] + (first.trace + second.trace);
    }
  }

  function Onward(fetch: Fetch, step: Result<string, Problem>, path: string, parts: seq<string>, later: Walk,
                  done: seq<string>): Walk {
    match step
    case Err(problem) => Walk(done, Some(problem))
    case Ok(sha) => After(done, Then(WalkPath(fetch, sha, path, parts), later))
  }

  /** What one more component adds to what is left of the walk. */
  lemma WalkOn(fetch: Fetch, sha: string, path: string, parts: seq<string>, later: Walk, done: seq<string>)
    requires parts != [] && IsIdentity(sha)
    ensures After(done, Then(WalkPath(fetch, sha, path, parts), later))
         == Onward(fetch, Advance(fetch, sha, path, parts[0], |parts| == 1), path, parts[1..], later, done + [sha])
  {
    var step := Advance(fetch, sha, path, parts[0], |parts| == 1);
    if step.Ok? {
      var rest := WalkPath(fetch, step.value, path, parts[1..]);
      ThenAfter(sha, rest, later);
      AfterAgain(done, sha, Then(rest, later));
    }
  }

  lemma Overrun(walk: Walk, done: seq<string>, rest: Walk)
    requires walk == After(done, rest) && |Distinct(done)| == MAX_TREES + 1
    ensures Verdict(walk) == Some(TooManyTrees) && Cut(Distinct(walk.trace)) == Distinct(done)[..MAX_TREES]
  {
    DistinctPrefix(done, rest.trace);
  }

  /** The tree for an identity, from the cache or else from the reader. */
  method ReadTree(fetch: Fetch, sha: string, cache: map<string, Json>, fetched: seq<string>, ghost done: seq<string>)
    returns (r: Result<Json, Problem>, cache': map<string, Json>, fetched': seq<string>)
    requires Memo(cache, fetched, done, fetch)
    ensures match r
            case Ok(tree) => fetch(sha) == Ok(tree) && Memo(cache', fetched', done + [sha], fetch)
            case Err(problem) =>
              if problem == TooManyTrees
              then |Distinct(done + [sha])| == MAX_TREES + 1 && fetched' == Distinct(done + [sha])[..MAX_TREES]
              else && fetch(sha).Err? && problem == FetchFailed(fetch(sha).error)
                   && fetched' == Distinct(done + [sha]) && |fetched'| <= MAX_TREES
  {
    cache', fetched' := cache, fetched;
    DistinctStep(done, sha);
    if sha !in cache {
      if |cache| >= MAX_TREES {
        return Err(TooManyTrees), cache, fetched;
      }
      fetched' := fetched + [sha];
      var tree := fetch(sha);
      if tree.Err? {
        return Err(FetchFailed(tree.error)), cache, fetched';
      }
      cache' := cache[sha := tree.value];
    }
    r := Ok(cache'[sha]);
  }

  /** The body of the source's inner loop: one component, through the cache. */
  method Component(fetch: Fetch, sha: string, path: string, name: string, final: bool,
                   cache: map<string, Json>, fetched: seq<string>, ghost done: seq<string>)
    returns (step: Result<string, Problem>, cache': map<string, Json>, fetched': seq<string>)
    requires Memo(cache, fetched, done, fetch)
    ensures if step == Err(TooManyTrees)
            then |Distinct(done + [sha])| == MAX_TREES + 1 && fetched' == Distinct(done + [sha])[..MAX_TREES]
            else && step == Advance(fetch, sha, path, name, final)
                 && fetched' == Distinct(done + [sha]) && |fetched'| <= MAX_TREES
    ensures step.Ok? ==> Memo(cache', fetched', done + [sha], fetch)
  {
    var tree;
    tree, cache', fetched' := ReadTree(fetch, sha, cache, fetched, done);
    if tree.Err? {
      return Err(tree.error), cache', fetched';
    }
    var entry := Lookup(tree.value, path, name);
    if entry.Err? {
      return Err(entry.error), cache', fetched';
    }
    step := Enter(entry.value, sha, path, final);
  }

  ghost predicate Answers(walk: Walk, problem: Option<Problem>, fetched: seq<string>) {
    problem == Verdict(walk) && fetched == Cut(Distinct(walk.trace))
  }

  /** A component that fails ends the whole walk with its problem, and one that would need
      a tree too many ends it whatever the rest of the walk holds. */
  lemma StopsHere(fetch: Fetch, sha: string, path: string, parts: seq<string>, later: Walk, done: seq<string>,
                  step: Result<string, Problem>, fetched: seq<string>)
    requires parts != [] && IsIdentity(sha) && step.Err?
    requires if step == Err(TooManyTrees)
             then |Distinct(done + [sha])| == MAX_TREES + 1 && fetched == Distinct(done + [sha])[..MAX_TREES]
             else && step == Advance(fetch, sha, path, parts[0], |parts| == 1)
                  && fetched == Distinct(done + [sha]) && |fetched| <= MAX_TREES
    ensures Answers(After(done, Then(WalkPath(fetch, sha, path, parts), later)), Some(step.error), fetched)
  {
    WalkOn(fetch, sha, path, parts, later, done);
    var walk := After(done, Then(WalkPath(fetch, sha, path, parts), later));
    var looked := done + [sha];
    if step == Err(TooManyTrees) {
      Overrun(walk, looked, Walk(walk.trace[|looked|..], walk.problem));
    }
  }

  lemma BadIdentityEnds(fetch: Fetch, sha: string, path: string, parts: seq<string>, later: Walk, done: seq<string>,
                        fetched: seq<string>)
    requires parts != [] && !IsIdentity(sha) && fetched == Distinct(done) && |fetched| <= MAX_TREES
    ensures Answers(After(done, Then(WalkPath(fetch, sha, path, parts), later)), Some(BadIdentity), fetched)
  {
    assert done + [] == done;
  }

  /** The source's inner loop: the components of one path. `later` is the walk of the
      paths that follow it. */
  method FollowPath(fetch: Fetch, root: string, path: string, cache: map<string, Json>, fetched: seq<string>,
                    ghost done: seq<string>, ghost later: Walk)
    returns (problem: Option<Problem>, cache': map<string, Json>, fetched': seq<string>, ghost done': seq<string>)
    requires Memo(cache, fetched, done, fetch)
    ensures problem.Some? ==>
      Answers(After(done, Then(WalkPath(fetch, root, path, Parts(path)), later)), problem, fetched')
    ensures problem.None? ==>
      Memo(cache', fetched', done', fetch)
      && After(done, Then(WalkPath(fetch, root, path, Parts(path)), later)) == After(done', later)
  {
    cache', fetched', done' := cache, fetched, done;
    var sha := root;
    var parts := Parts(path);
    ghost var walk := After(done, Then(WalkPath(fetch, root, path, parts), later));
    ghost var left := parts;
    for j := 0 to |parts|
      invariant left == parts[j..]
      invariant walk == After(done', Then(WalkPath(fetch, sha, path, left), later))
      invariant Memo(cache', fetched', done', fetch)
    {
      assert left[0] == parts[j] && left[1..] == parts[j + 1..];
      if !IsIdentity(sha) {
        BadIdentityEnds(fetch, sha, path, left, later, done', fetched');
        return Some(BadIdentity), cache', fetched', done';
      }
      WalkOn(fetch, sha, path, left, later, done');
      var step;
      ghost var before := done';
      step, cache', fetched' := Component(fetch, sha, path, parts[j], j + 1 == |parts|, cache', fetched', done');
      if step.Err? {
        StopsHere(fetch, sha, path, left, later, before, step, fetched');
        return Some(step.error), cache', fetched', done';
      }
      done', left := done' + [sha], left[1..];
      sha := step.value;
    }
    problem := None;
    AfterNothing(later);
  }

  /** The walk of all paths with one cache. `fetched` is the trees the reader was asked
      for, in order: each once, and never more than `MAX_TREES`. */
  method VerifyPaths(fetch: Fetch, root: string, paths: seq<string>)
    returns (problem: Option<Problem>, fetched: seq<string>)
    ensures problem == Verdict(WalkAll(fetch, root, paths))
    ensures fetched == Cut(Distinct(WalkAll(fetch, root, paths).trace))
    ensures NoRepeats(fetched) && |fetched| <= 16
  {
    CutFew(WalkAll(fetch, root, paths).trace);
    var cache: map<string, Json> := map[];
    fetched := [];
    ghost var walk := WalkAll(fetch, root, paths);
    ghost var done: seq<string> := [];
    AfterNothing(walk);
    for i := 0 to |paths|
      invariant walk == After(done, WalkAll(fetch, root, paths[i..]))
      invariant Memo(cache, fetched, done, fetch)
    {
      assert paths[i..][0] == paths[i] && paths[i..][1..] == paths[i + 1..];
      problem, cache, fetched, done :=
        FollowPath(fetch, root, paths[i], cache, fetched, done, WalkAll(fetch, root, paths[i + 1..]));
      if problem.Some? {
        return;
      }
    }
    assert done + [] == done;
    return None, fetched;
  }

  // ---- What the walk means ------------------------------------------------------------------------

  lemma {:induction false} SplitJoins(s: string, part: string)
    ensures Join(SplitFrom(s, part), "/") == part + s
  {
    if s != "" {
      assert s == [s[0]] + s[1..];
      if s[0] == '/' {
        SplitJoins(s[1..], "");
        JoinMore(part, SplitFrom(s[1..], ""));
        assert "" + s[1..] == s[1..];
      } else {
        SplitJoins(s[1..], part + [s[0]]);
      }
    }
  }

  lemma JoinMore(first: string, rest: seq<string>)
    requires rest != []
    ensures Join([first] + rest, "/") == first + ("/" + Join(rest, "/"))
  {
    assert ([first] + rest)[1..] == rest;
  }

  lemma {:induction false} SplitSlashless(s: string, part: string)
    requires '/' !in part
    ensures forall p :: p in SplitFrom(s, part) ==> '/' !in p
  {
    if s != "" {
      SplitSlashless(s[1..], if s[0] == '/' then "" else part + [s[0]]);
    }
  }

  /** The components a path is split into hold no slash and joined give the path back. */
  lemma PartsJoin(path: string)
    requires path != "."
    ensures Parts(path) != [] && Join(Parts(path), "/") == path
    ensures forall p :: p in Parts(path) ==> '/' !in p
  {
    SplitJoins(path, "");
    SplitSlashless(path, "");
    assert "" + path == path;
  }

  function Listing(fetch: Fetch, sha: string): Option<seq<Json>> {
    match fetch(sha)
    case Err(_) => None
    case Ok(tree) =>
      if Field(tree, "truncated") == JBool(false) && Field(tree, "tree").JArray?
      then Some(Field(tree, "tree").items)
      else None
  }

  /** What one component is refused for, first fault first: a tree that is not read, that is
      cut short or lists nothing, a name that is not listed, an entry that is no regular
      file or folder (or no folder although more follows), a folder without an identity. */
  lemma RefusedFor(fetch: Fetch, sha: string, path: string, name: string, final: bool, problem: Problem)
    requires Advance(fetch, sha, path, name, final) == Err(problem)
    ensures match problem
            case FetchFailed(message) => fetch(sha) == Err(message)
            case Incomplete => fetch(sha).Ok? && Field(fetch(sha).value, "truncated") != JBool(false)
            case BadListing =>
              && fetch(sha).Ok? && Field(fetch(sha).value, "truncated") == JBool(false)
              && !Field(fetch(sha).value, "tree").JArray?
            case NotFound(which) =>
              which == path && Listing(fetch, sha).Some? && FindEntry(Listing(fetch, sha).value, name).None?
            case NotRegular(which) =>
              which == path && Entry(fetch, sha, name).Some? && !Usable(Entry(fetch, sha, name).value, final)
            case NoFolderIdentity =>
              && Entry(fetch, sha, name).Some? && Usable(Entry(fetch, sha, name).value, final)
              && Field(Entry(fetch, sha, name).value, "type") == JString("tree")
              && !Field(Entry(fetch, sha, name).value, "sha").JString?
            case _ => false
  {
  }

  function Entry(fetch: Fetch, sha: string, name: string): Option<Json> {
    match Listing(fetch, sha)
    case None => None
    case Some(entries) => FindEntry(entries, name)
  }

  predicate Usable(entry: Json, final: bool) {
    var kind, mode := Field(entry, "type"), Field(entry, "mode");
    || (kind == JString("tree") && mode == JString("040000"))
    || (final && kind == JString("blob") && (mode == JString("100644") || mode == JString("100755")))
  }

  /** Symbolic links and submodules are never accepted, last or not. */
  lemma LinksRefused(entry: Json, sha: string, path: string, final: bool)
    requires Field(entry, "mode") == JString("120000") || Field(entry, "mode") == JString("160000")
    ensures Enter(entry, sha, path, final) == Err(NotRegular(path))
  {
  }

  /** A component is only looked up in a tree with a well-formed identity. */
  lemma MalformedRefused(fetch: Fetch, sha: string, path: string, parts: seq<string>)
    requires parts != []
    ensures WalkPath(fetch, sha, path, parts).trace == []
       <==> !WellFormed(sha)
    ensures WalkPath(fetch, sha, path, parts).trace == [] ==> WalkPath(fetch, sha, path, parts).problem == Some(BadIdentity)
  {
    IdentityIff(sha);
  }

  /** Forty hexadecimal digits, in either case. */
  predicate WellFormed(sha: string) {
    |sha| == 40 && forall c :: c in sha ==> c in "0123456789abcdefABCDEF"
  }

  lemma IdentityIff(sha: string)
    ensures IsIdentity(sha) <==> WellFormed(sha)
  {
    forall c ensures IsHex(c) <==> c in "0123456789abcdefABCDEF" {
      HexDigits(c);
    }
    if WellFormed(sha) {
      forall i | 0 <= i < |sha| ensures IsHex(sha[i]) {
        assert sha[i] in sha;
      }
    }
  }

  lemma HexDigits(c: char)
    ensures IsHex(c) <==> c in "0123456789abcdefABCDEF"
  {
    var all := "0123456789abcdefABCDEF";
    if '0' <= c <= '9' {
      assert all[c as int - '0' as int] == c;
    } else if 'a' <= c <= 'f' {
      assert all[10 + c as int - 'a' as int] == c;
    } else if 'A' <= c <= 'F' {
      assert all[16 + c as int - 'A' as int] == c;
    }
  }

  /** The whole repository is always in scope, and nothing is read to say so. */
  lemma DotIsRoot(fetch: Fetch, root: string)
    ensures WalkPath(fetch, root, ".", Parts(".")) == Walk([], None)
  {
  }

  /** `entry` is the first of `entries` with that name. */
  predicate FirstNamed(entries: seq<Json>, name: string, entry: Json) {
    exists k :: 0 <= k < |entries| && entries[k] == entry && Named(entries, k, name)
                && forall j :: 0 <= j < k ==> !Named(entries, j, name)
  }

  predicate Named(entries: seq<Json>, k: nat, name: string)
    requires k < |entries|
  {
    Field(entries[k], "path") == JString(name)
  }

  lemma {:induction false} FindEntryFirst(entries: seq<Json>, name: string, entry: Json)
    ensures FindEntry(entries, name) == Some(entry) <==> FirstNamed(entries, name, entry)
  {
    if entries != [] {
      var rest := entries[1..];
      FindEntryFirst(rest, name, entry);
      forall j | 0 <= j < |rest| ensures Named(rest, j, name) == Named(entries, j + 1, name) {}
      if Named(entries, 0, name) {
        assert FirstNamed(entries, name, entries[0]);
      } else {
        if FirstNamed(rest, name, entry) {
          var k :| 0 <= k < |rest| && rest[k] == entry && Named(rest, k, name)
                   && forall j :: 0 <= j < k ==> !Named(rest, j, name);
          assert entries[k + 1] == entry;
          forall j | 0 <= j < k + 1 ensures !Named(entries, j, name) {
            if j > 0 {
              assert !Named(rest, j - 1, name);
            }
          }
        }
        if FirstNamed(entries, name, entry) {
          var k :| 0 <= k < |entries| && entries[k] == entry && Named(entries, k, name)
                   && forall j :: 0 <= j < k ==> !Named(entries, j, name);
          assert rest[k - 1] == entry && Named(rest, k - 1, name);
          forall j | 0 <= j < k - 1 ensures !Named(rest, j, name) {
            assert !Named(entries, j + 1, name);
          }
        }
      }
    }
  }

  /** The component `name`, looked up in the tree `sha`, is a folder with the identity
      `next`, or at the end of a path (`next` absent) a regular file or any folder. */
  predicate Link(fetch: Fetch, sha: string, name: string, next: Option<string>) {
    && WellFormed(sha) && Listing(fetch, sha).Some?
    && var entry := FindEntry(Listing(fetch, sha).value, name);
       && entry.Some?
       && var kind, mode, sha := Field(entry.value, "type"), Field(entry.value, "mode"), Field(entry.value, "sha");
          if next.Some? then kind == JString("tree") && mode == JString("040000") && sha == JString(next.value)
          else
            || (kind == JString("blob") && (mode == JString("100644") || mode == JString("100755")))
            || (kind == JString("tree") && mode == JString("040000") && sha.JString?)
  }

  function NextIn(chain: seq<string>, k: nat): Option<string> {
    if k + 1 < |chain| then Some(chain[k + 1]) else None
  }

  predicate LinkAt(fetch: Fetch, chain: seq<string>, parts: seq<string>, k: nat)
    requires k < |parts| == |chain|
  {
    Link(fetch, chain[k], parts[k], NextIn(chain, k))
  }

  /** One tree per component, each holding the next. */
  predicate Chain(fetch: Fetch, chain: seq<string>, parts: seq<string>) {
    |chain| == |parts| && forall k :: 0 <= k < |parts| ==> LinkAt(fetch, chain, parts, k)
  }

  /** A path exists: there is a chain of trees from the root along its components. */
  ghost predicate Resolves(fetch: Fetch, root: string, parts: seq<string>) {
    parts == [] || exists chain :: Chain(fetch, chain, parts) && chain[0] == root
  }

  lemma LinkLast(fetch: Fetch, sha: string, path: string, name: string)
    ensures Link(fetch, sha, name, None) <==> IsIdentity(sha) && Advance(fetch, sha, path, name, true).Ok?
  {
    IdentityIff(sha);
  }

  lemma LinkNext(fetch: Fetch, sha: string, path: string, name: string, next: string)
    ensures Link(fetch, sha, name, Some(next)) <==> IsIdentity(sha) && Advance(fetch, sha, path, name, false) == Ok(next)
  {
    IdentityIff(sha);
  }

  lemma ChainMore(fetch: Fetch, sha: string, chain: seq<string>, parts: seq<string>)
    requires |parts| > 1 && |chain| + 1 == |parts|
    ensures Chain(fetch, [sha] + chain, parts)
       <==> Link(fetch, sha, parts[0], Some(chain[0])) && Chain(fetch, chain, parts[1..])
  {
    var whole := [sha] + chain;
    forall k | 0 <= k < |chain| ensures LinkAt(fetch, chain, parts[1..], k) == LinkAt(fetch, whole, parts, k + 1) {
      assert NextIn(whole, k + 1) == NextIn(chain, k);
    }
    if Chain(fetch, whole, parts) {
      assert LinkAt(fetch, whole, parts, 0);
      forall k | 0 <= k < |chain| ensures LinkAt(fetch, chain, parts[1..], k) {
        assert LinkAt(fetch, whole, parts, k + 1);
      }
    }
    if Link(fetch, sha, parts[0], Some(chain[0])) && Chain(fetch, chain, parts[1..]) {
      forall k | 0 <= k < |parts| ensures LinkAt(fetch, whole, parts, k) {
        if k > 0 {
          assert LinkAt(fetch, chain, parts[1..], k - 1);
        }
      }
    }
  }

  lemma ChainOne(fetch: Fetch, sha: string, parts: seq<string>)
    requires |parts| == 1
    ensures Chain(fetch, [sha], parts) <==> Link(fetch, sha, parts[0], None)
  {
    assert LinkAt(fetch, [sha], parts, 0) <==> Link(fetch, sha, parts[0], None);
  }

  /** The walk of a path ends well exactly when the path exists. */
  lemma {:induction false} WalkResolves(fetch: Fetch, sha: string, path: string, parts: seq<string>)
    ensures WalkPath(fetch, sha, path, parts).problem.None? <==> Resolves(fetch, sha, parts)
    decreases |parts|
  {
    if |parts| == 1 {
      LinkLast(fetch, sha, path, parts[0]);
      ChainOne(fetch, sha, parts);
      if Resolves(fetch, sha, parts) {
        var chain :| Chain(fetch, chain, parts) && chain[0] == sha;
        assert chain == [sha];
      }
    } else if |parts| > 1 {
      var step := Advance(fetch, sha, path, parts[0], false);
      if IsIdentity(sha) && step.Ok? {
        WalkResolves(fetch, step.value, path, parts[1..]);
        LinkNext(fetch, sha, path, parts[0], step.value);
        if Resolves(fetch, step.value, parts[1..]) {
          var chain :| Chain(fetch, chain, parts[1..]) && chain[0] == step.value;
          ChainMore(fetch, sha, chain, parts);
          assert ([sha] + chain)[0] == sha;
        }
      }
      if Resolves(fetch, sha, parts) {
        var chain :| Chain(fetch, chain, parts) && chain[0] == sha;
        assert chain == [sha] + chain[1..];
        ChainMore(fetch, sha, chain[1..], parts);
        LinkNext(fetch, sha, path, parts[0], chain[1]);
        assert Resolves(fetch, chain[1], parts[1..]);
      }
    }
  }

  ghost predicate AllResolve(fetch: Fetch, root: string, paths: seq<string>) {
    forall i :: 0 <= i < |paths| ==> Resolves(fetch, root, Parts(paths[i]))
  }

  lemma {:induction false} WalkAllResolves(fetch: Fetch, root: string, paths: seq<string>)
    ensures WalkAll(fetch, root, paths).problem.None? <==> AllResolve(fetch, root, paths)
  {
    if paths != [] {
      WalkResolves(fetch, root, paths[0], Parts(paths[0]));
      WalkAllResolves(fetch, root, paths[1..]);
      if AllResolve(fetch, root, paths[1..]) && Resolves(fetch, root, Parts(paths[0])) {
        forall i | 0 <= i < |paths| ensures Resolves(fetch, root, Parts(paths[i])) {
          if i > 0 {
            assert paths[1..][i - 1] == paths[i];
          }
        }
      }
      if AllResolve(fetch, root, paths) {
        forall i | 0 <= i < |paths[1..]| ensures Resolves(fetch, root, Parts(paths[1..][i])) {
          assert paths[1..][i] == paths[i + 1];
        }
      }
    }
  }

  /** The check passes exactly when every path exists and finding them takes at most
      `MAX_TREES` different trees; the cache changes nothing else. */
  lemma AcceptedIffAllExist(fetch: Fetch, root: string, paths: seq<string>)
    ensures Verdict(WalkAll(fetch, root, paths)).None?
       <==> AllResolve(fetch, root, paths) && |Distinct(WalkAll(fetch, root, paths).trace)| <= 16
  {
    WalkAllResolves(fetch, root, paths);
  }
}
