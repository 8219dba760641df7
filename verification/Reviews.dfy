/** Discoverability of review documents: the worklist that follows visible links, and links to strict descendant
    directories, from a family's seeds. */
module Reviews {
  import opened Options

  type Path = string

  /** A link as parsed: whether it is an image, whether it is a Markdown link without a label, its destination text and
      the local record it resolves to, if it resolves. */
  datatype Link = Link(image: bool, unlabelled: bool, value: string, target: Option<Path>)

  /** The documents that load, with their links; the review paths; the family's prefix; the directories on disk. */
  datatype Corpus = Corpus(documents: map<Path, seq<Link>>, available: set<Path>, prefix: Path, directories: set<Path>)

  /** The destination has a path before any fragment or query. */
  predicate HasPath(value: string) {
    |value| > 0 && value[0] != '#' && value[0] != '?'
  }

  predicate Visible(link: Link) {
    !link.image && !link.unlabelled && HasPath(link.value) && link.target.Some?
  }

  function WithoutTrailingSlashes(path: Path): Path {
    if |path| > 0 && path[|path| - 1] == '/' then WithoutTrailingSlashes(path[..|path| - 1]) else path
  }

  /** What is cut off is slashes, all of them. */
  lemma {:induction false} SlashesCut(path: Path)
    ensures var short := WithoutTrailingSlashes(path);
      && |short| <= |path| && path[..|short|] == short && (forall i | |short| <= i < |path| :: path[i] == '/')
      && (short == "" || short[|short| - 1] != '/')
  {
    if |path| > 0 && path[|path| - 1] == '/' {
      SlashesCut(path[..|path| - 1]);
    }
  }

  /** The review paths strictly inside a directory. */
  function Inside(c: Corpus, directory: Path): set<Path> {
    set p | p in c.available && WithoutTrailingSlashes(directory) + "/" <= p
  }

  /** What a link to `target` grants: the review itself, or everything inside a directory of the family. */
  function Granted(c: Corpus, target: Path): (r: set<Path>)
    ensures r <= c.available
  {
    if target in c.available then {target}
    else if c.prefix + "/" <= target && target in c.directories then Inside(c, target)
    else {}
  }

  /** What a link grants, exactly: the review it names; or, if it names no review, the reviews strictly inside the
      directory it names, provided that directory lies strictly inside the family. */
  lemma GrantedIs(c: Corpus, target: Path, p: Path)
    ensures p in Granted(c, target) <==>
      && p in c.available
      && (p == target
          || (&& target !in c.available && target in c.directories && StrictlyInside(c.prefix, target)
              && StrictlyInside(WithoutTrailingSlashes(target), p)))
  {
    hide WithoutTrailingSlashes, StrictlyInside;
    StrictlyInsideIff(c.prefix, target);
    StrictlyInsideIff(WithoutTrailingSlashes(target), p);
  }

  /** `p` has more path below `directory`. */
  predicate StrictlyInside(directory: Path, p: Path) {
    |p| > |directory| && p[..|directory|] == directory && p[|directory|] == '/'
  }

  lemma StrictlyInsideIff(directory: Path, p: Path)
    ensures StrictlyInside(directory, p) <==> directory + "/" <= p
  {
    if |p| > |directory| {
      assert p[..|directory| + 1] == p[..|directory|] + [p[|directory|]];
      assert (directory + "/")[..|directory|] == directory && (directory + "/")[|directory|] == '/';
    }
  }

  /** A link to the family's own root, or to a directory that is none of its descendants, grants nothing unless it names
      a review. */
  lemma FamilyRootGrantsNothing(c: Corpus, target: Path)
    requires target !in c.available && !StrictlyInside(c.prefix, target)
    ensures Granted(c, target) == {} && !StrictlyInside(c.prefix, c.prefix)
  {
    StrictlyInsideIff(c.prefix, target);
  }

  /** Images, links without a label, bare fragments and queries, and links that resolve to nothing grant nothing. */
  lemma HiddenLinksGrantNothing(c: Corpus, from: Path, to: Path)
    requires from in c.documents
    requires forall i | 0 <= i < |c.documents[from]| ::
      var link := c.documents[from][i];
      link.image || link.unlabelled || link.target.None? || link.value == "" || link.value[0] in "#?"
    ensures !Grants(c, from, to)
  {
    hide Granted;
  }

  ghost predicate Grants(c: Corpus, from: Path, to: Path) {
    from in c.documents
    && exists i :: 0 <= i < |c.documents[from]| && Visible(c.documents[from][i])
                   && to in Granted(c, c.documents[from][i].target.value)
  }

  ghost predicate Closed(c: Corpus, s: set<Path>) {
    forall p, q | p in s && Grants(c, p, q) :: q in s
  }

  /** The least set that holds the available seeds and is closed under what its members grant. */
  ghost predicate LeastClosed(c: Corpus, seeds: set<Path>, r: set<Path>) {
    && seeds * c.available <= r <= c.available && Closed(c, r)
    && forall s: set<Path> | seeds * c.available <= s && Closed(c, s) :: r <= s
  }

  /** A chain of at most `n` grants leads from an available seed to `p`. */
  ghost predicate ChainTo(c: Corpus, seeds: set<Path>, p: Path, n: nat)
    decreases n
  {
    (p in seeds && p in c.available) || (n > 0 && exists q :: ChainTo(c, seeds, q, n - 1) && Grants(c, q, p))
  }

  /** A chain of visible links leads from an available seed to `p`. */
  ghost predicate Chained(c: Corpus, seeds: set<Path>, p: Path) {
    exists n: nat :: ChainTo(c, seeds, p, n)
  }

  /** The least closed set is unique, so the result does not depend on the order documents are visited in. */
  lemma LeastClosedIsUnique(c: Corpus, seeds: set<Path>, r: set<Path>, r': set<Path>)
    requires LeastClosed(c, seeds, r) && LeastClosed(c, seeds, r')
    ensures r == r'
  {
  }

  lemma {:induction false} ChainStaysInside(c: Corpus, seeds: set<Path>, p: Path, n: nat, s: set<Path>)
    requires seeds * c.available <= s && Closed(c, s) && ChainTo(c, seeds, p, n)
    ensures p in s
    decreases n
  {
    if !(p in seeds && p in c.available) {
      var q :| ChainTo(c, seeds, q, n - 1) && Grants(c, q, p);
      ChainStaysInside(c, seeds, q, n - 1, s);
    }
  }

  /** A review is reached exactly when a chain of visible links leads to it from an available seed. */
  lemma ReachedIffChained(c: Corpus, seeds: set<Path>, r: set<Path>, p: Path)
    requires LeastClosed(c, seeds, r)
    ensures p in r <==> Chained(c, seeds, p)
  {
    if Chained(c, seeds, p) {
      var n: nat :| ChainTo(c, seeds, p, n);
      ChainStaysInside(c, seeds, p, n, r);
    }
    var s := set q | q in r && Chained(c, seeds, q);
    forall q | q in seeds * c.available ensures q in s {
      assert ChainTo(c, seeds, q, 0);
    }
    forall q, q' | q in s && Grants(c, q, q') ensures q' in s {
      var n: nat :| ChainTo(c, seeds, q, n);
      assert ChainTo(c, seeds, q', n + 1);
    }
    assert Closed(c, s) && seeds * c.available <= s;
    assert r <= s;
  }

  /** Everything `p` grants has been reached. */
  ghost predicate Followed(c: Corpus, p: Path, reached: set<Path>) {
    forall q | Grants(c, p, q) :: q in reached
  }

  /** Whatever is closed and holds the seeds holds everything reached so far. */
  ghost predicate Forced(c: Corpus, seeds: set<Path>, reached: set<Path>) {
    forall s: set<Path> | seeds * c.available <= s && Closed(c, s) :: reached <= s
  }

  /** Everything reached is on the worklist, is the document being read, or has been followed. */
  ghost predicate Settled(c: Corpus, reached: set<Path>, pending: seq<Path>, reading: set<Path>) {
    && (forall p | p in pending :: p in reached)
    && forall p | p in reached && p !in pending && p !in reading :: Followed(c, p, reached)
  }

  ghost predicate CacheRight(c: Corpus, directories: map<Path, set<Path>>) {
    forall d | d in directories :: directories[d] == Inside(c, d)
  }

  lemma AddKeepsForced(c: Corpus, seeds: set<Path>, reached: set<Path>, path: Path, i: nat)
    requires Forced(c, seeds, reached) && path in reached && path in c.documents
    requires i < |c.documents[path]| && Visible(c.documents[path][i])
    ensures Forced(c, seeds, reached + Granted(c, c.documents[path][i].target.value))
  {
    hide Granted;
    var additions := Granted(c, c.documents[path][i].target.value);
    assert forall q | q in additions :: Grants(c, path, q);
  }

  lemma AddKeepsSettled(c: Corpus, reached: set<Path>, pending: seq<Path>, reading: set<Path>, additions: set<Path>,
                        listed: seq<Path>)
    requires Settled(c, reached, pending, reading) && forall p :: p in listed <==> p in additions - reached
    ensures Settled(c, reached + additions, pending + listed, reading)
  {
    hide Grants;
  }

  lemma ReadingIsFollowed(c: Corpus, reached: set<Path>, pending: seq<Path>, path: Path)
    requires Settled(c, reached, pending, {path})
    requires path in c.documents ==> forall j | 0 <= j < |c.documents[path]| && Visible(c.documents[path][j]) ::
      Granted(c, c.documents[path][j].target.value) <= reached
    ensures Settled(c, reached, pending, {})
  {
    hide Visible, Granted;
  }

  lemma PopKeepsSettled(c: Corpus, reached: set<Path>, pending: seq<Path>)
    requires Settled(c, reached, pending, {}) && pending != []
    ensures Settled(c, reached, pending[..|pending| - 1], {pending[|pending| - 1]})
  {
    hide Followed;
    assert pending == pending[..|pending| - 1] + [pending[|pending| - 1]];
  }

  lemma SettledEnd(c: Corpus, reached: set<Path>)
    ensures Settled(c, reached, [], {}) ==> Closed(c, reached)
  {
    hide Grants;
  }

  method ReachableReviews(c: Corpus, seeds: set<Path>) returns (reached: set<Path>)
    ensures LeastClosed(c, seeds, reached)
  {
    hide Settled, CacheRight, Closed;
    reached := seeds * c.available;
    var pending := Listed(reached);
    var directories: map<Path, set<Path>> := map[];
    AllWaiting(c, reached, pending);
    while |pending| > 0
      invariant seeds * c.available <= reached <= c.available && Settled(c, reached, pending, {})
      invariant Forced(c, seeds, reached) && CacheRight(c, directories)
      decreases |c.available - reached|, |pending|
    {
      PopKeepsSettled(c, reached, pending);
      var path := pending[|pending| - 1];
      PendingIsReached(c, reached, pending);
      pending := pending[..|pending| - 1];
      ghost var before := reached;
      if path in c.documents {
        reached, pending, directories := FollowLinks(c, seeds, path, reached, pending, directories);
      } else {
        ReadingIsFollowed(c, reached, pending, path);
      }
      if reached != before {
        Shrinks(c.available, before, reached);
      }
    }
    SettledEnd(c, reached);
  }

  lemma AllWaiting(c: Corpus, reached: set<Path>, pending: seq<Path>)
    requires forall p :: p in pending <==> p in reached
    ensures Settled(c, reached, pending, {}) && CacheRight(c, map[])
  {
  }

  lemma PendingIsReached(c: Corpus, reached: set<Path>, pending: seq<Path>)
    requires Settled(c, reached, pending, {}) && pending != []
    ensures pending[|pending| - 1] in reached
  {
  }

  lemma Shrinks(available: set<Path>, before: set<Path>, after: set<Path>)
    requires before < after <= available
    ensures |available - after| < |available - before|
  {
    assert available - before == (available - after) + (after - before);
  }

  /** One document: each visible link adds what it grants, to the reached set and to the worklist. */
  method FollowLinks(c: Corpus, ghost seeds: set<Path>, path: Path, reached0: set<Path>, pending0: seq<Path>,
                     directories0: map<Path, set<Path>>)
    returns (reached: set<Path>, pending: seq<Path>, directories: map<Path, set<Path>>)
    requires path in c.documents && path in reached0 && reached0 <= c.available
    requires Settled(c, reached0, pending0, {path}) && Forced(c, seeds, reached0) && CacheRight(c, directories0)
    ensures reached0 <= reached <= c.available && (reached == reached0 ==> pending == pending0)
    ensures Settled(c, reached, pending, {}) && Forced(c, seeds, reached) && CacheRight(c, directories)
  {
    hide Settled, CacheRight, Forced, Inside, Visible;
    reached, pending, directories := reached0, pending0, directories0;
    var links := c.documents[path];
    for i := 0 to |links|
      invariant reached0 <= reached <= c.available && (reached == reached0 ==> pending == pending0)
      invariant Settled(c, reached, pending, {path}) && Forced(c, seeds, reached) && CacheRight(c, directories)
      invariant forall j | 0 <= j < i && Visible(links[j]) ::
        links[j].target.Some? && Granted(c, links[j].target.value) <= reached
    {
      if !Visible(links[i]) {
        continue;
      }
      VisibleResolves(links[i]);
      var target := links[i].target.value;
      var additions := {};
      if target in c.available {
        additions := {target};
      } else if c.prefix + "/" <= target && target in c.directories {
        CacheOne(c, directories, target);
        if target !in directories {
          directories := directories[target := Inside(c, target)];
        }
        additions := directories[target];
      }
      AddKeepsForced(c, seeds, reached, path, i);
      var listed := Listed(additions - reached);
      AddKeepsSettled(c, reached, pending, {path}, additions, listed);
      assert reached + additions == reached ==> additions - reached == {};
      reached, pending := reached + additions, pending + listed;
    }
    ReadingIsFollowed(c, reached, pending, path);
  }

  lemma VisibleResolves(link: Link)
    ensures Visible(link) ==> link.target.Some?
  {
  }

  lemma CacheOne(c: Corpus, directories: map<Path, set<Path>>, d: Path)
    requires CacheRight(c, directories)
    ensures d in directories ==> directories[d] == Inside(c, d)
    ensures CacheRight(c, directories[d := Inside(c, d)])
  {
  }

  /** The members of a set in some order. */
  method Listed(s: set<Path>) returns (list: seq<Path>)
    ensures forall p :: p in list <==> p in s
    ensures |list| == |s|
  {
    list := [];
    var rest := s;
    while rest != {}
      invariant rest <= s && forall p :: p in list <==> p in s - rest
      invariant |list| + |rest| == |s|
      decreases rest
    {
      var p :| p in rest;
      list := list + [p];
      rest := rest - {p};
    }
  }
}
