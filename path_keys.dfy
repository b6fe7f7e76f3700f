/**
 * Path keys: the attribute names that define nesting in the report, their
 * lazily resolved descriptors, the path predicate built from them, and the
 * path-column width a reached node asks for.
 */
module PathKeys {
  import opened Wrappers
  import opened SnapshotTrees

  const Separator: char := ','

  /**
   * Split a comma-separated list into its pieces, keeping empty ones: "" is
   * one empty name, "a,,b" is three names.
   */
  function Split(s: string): (r: seq<string>)
    ensures |r| >= 1
    decreases |s|
  {
    if s == [] then [""]
    else
      var rest := Split(s[1..]);
      if s[0] == Separator then [""] + rest
      else [[s[0]] + rest[0]] + rest[1..]
  }

  /** The inverse of Split: the pieces with a comma between neighbours. */
  function Join(parts: seq<string>): string
    requires |parts| >= 1
    decreases |parts|
  {
    if |parts| == 1 then parts[0] else parts[0] + [Separator] + Join(parts[1..])
  }

  /** Splitting loses nothing: joining the pieces gives the argument back. */
  lemma {:induction false} JoinSplit(s: string)
    ensures Join(Split(s)) == s
    decreases |s|
  {
    if s != [] {
      var rest := Split(s[1..]);
      JoinSplit(s[1..]);
      if s[0] == Separator {
        assert ([""] + rest)[1..] == rest;
      } else {
        JoinPrepend(s[0], rest);
      }
      assert [s[0]] + s[1..] == s;
    }
  }

  /** Prefixing the first piece with a character prefixes the joined string with it. */
  lemma JoinPrepend(c: char, parts: seq<string>)
    requires |parts| >= 1
    ensures Join([[c] + parts[0]] + parts[1..]) == [c] + Join(parts)
  {
    if |parts| > 1 {
      JoinPrependMany(c, parts);
    }
  }

  lemma JoinPrependMany(c: char, parts: seq<string>)
    requires |parts| > 1
    ensures Join([[c] + parts[0]] + parts[1..]) == [c] + Join(parts)
  {
    var r := [[c] + parts[0]] + parts[1..];
    assert r[1..] == parts[1..];
    var tail := Join(parts[1..]);
    assert ([c] + parts[0]) + [Separator] + tail == [c] + (parts[0] + [Separator] + tail);
  }


  /** No piece contains the separator. */
  lemma {:induction false} SplitPiecesHaveNoSeparator(s: string)
    ensures forall i | 0 <= i < |Split(s)| :: Separator !in Split(s)[i]
    decreases |s|
  {
    if s != [] {
      SplitPiecesHaveNoSeparator(s[1..]);
    }
  }

  /** One more piece than there are separators. */
  function Count(s: string, c: char): nat {
    if s == [] then 0 else (if s[0] == c then 1 else 0) + Count(s[1..], c)
  }

  lemma {:induction false} SplitCount(s: string)
    ensures |Split(s)| == Count(s, Separator) + 1
    decreases |s|
  {
    if s != [] {
      SplitCount(s[1..]);
    }
  }

  /** The names `configure` appends: the pieces of the first format argument, or none without arguments. */
  function ConfiguredNames(formatArgs: seq<string>): (r: seq<string>)
    ensures formatArgs == [] ==> r == []
    ensures formatArgs != [] ==> |r| >= 1 && Join(r) == formatArgs[0]
    ensures forall i | 0 <= i < |r| :: Separator !in r[i]
  {
    if |formatArgs| > 0 then
      JoinSplit(formatArgs[0]);
      SplitPiecesHaveNoSeparator(formatArgs[0]);
      Split(formatArgs[0])
    else []
  }

  /** A cache with one invalid entry per name. */
  function Unresolved(n: nat): (r: seq<Option<Attribute>>)
    ensures |r| == n && forall i | 0 <= i < n :: r[i].None?
  {
    seq(n, _ => None)
  }

  /**
   * What `get_path_keys` returns and leaves cached: a cached entry is kept,
   * an invalid one is replaced by the current lookup of its name.
   */
  function Resolve(cache: seq<Option<Attribute>>, names: seq<string>, db: Db): (r: seq<Option<Attribute>>)
    requires |cache| == |names|
    ensures |r| == |names|
    ensures forall i | 0 <= i < |names| :: r[i].Some? <==> cache[i].Some? || db(names[i]).Some?
    ensures forall i | 0 <= i < |names| && cache[i].Some? :: r[i] == cache[i]
    ensures forall i | 0 <= i < |names| && r[i] != cache[i] :: r[i] == db(names[i])
  {
    seq(|cache|, i requires 0 <= i < |cache| => if cache[i].Some? then cache[i] else db(names[i]))
  }

  /**
   * Entry i is valid iff it was cached or its name resolves now; a cached
   * entry is returned as it was, whatever the database now says.
   */
  lemma ResolveEntries(cache: seq<Option<Attribute>>, names: seq<string>, db: Db, db': Db)
    requires |cache| == |names|
    requires forall i | 0 <= i < |names| && cache[i].None? :: db(names[i]) == db'(names[i])
    ensures |Resolve(cache, names, db)| == |names|
    ensures forall i | 0 <= i < |names| ::
      Resolve(cache, names, db)[i].Some? <==> cache[i].Some? || db(names[i]).Some?
    ensures forall i | 0 <= i < |names| && cache[i].Some? :: Resolve(cache, names, db)[i] == cache[i]
    ensures Resolve(cache, names, db) == Resolve(cache, names, db')
  {
  }

  /** Resolving against the same database twice is resolving once. */
  lemma ResolveIdempotent(cache: seq<Option<Attribute>>, names: seq<string>, db: Db)
    requires |cache| == |names|
    ensures Resolve(Resolve(cache, names, db), names, db) == Resolve(cache, names, db)
  {
  }

  /** The predicate `add` passes: the nested flag without path-key names, else membership in the resolved keys. */
  function ChoosePredicate(names: seq<string>, keys: seq<Option<Attribute>>): (p: PathPredicate)
    ensures forall a :: IsPath(p, a) <==>
      if names == [] then a.nested
      else exists i | 0 <= i < |keys| :: keys[i].Some? && keys[i].value.id == a.id
  {
    if |names| == 0 then Nested else KeyMembership(keys)
  }

  /** An unresolved path key matches no attribute. */
  lemma UnresolvedKeysMatchNothing(names: seq<string>, a: Attribute)
    requires names != []
    ensures !IsPath(ChoosePredicate(names, Unresolved(|names|)), a)
  {
  }

  /**
   * The number of leading valid label keys in a parent chain: the node and
   * those of its consecutive ancestors that carry a label key.
   */
  function LabelledDepth(chain: seq<Option<Attribute>>): (k: nat)
    ensures k <= |chain|
    ensures forall i | 0 <= i < k :: chain[i].Some?
    ensures k < |chain| ==> chain[k].None?
  {
    if chain == [] || chain[0].None? then 0 else 1 + LabelledDepth(chain[1..])
  }

  /** The reached node's key followed by those of its ancestors. */
  function KeyChain(hit: Hit): seq<Option<Attribute>> {
    [hit.node.labelKey] + hit.ancestorKeys
  }

  /** The path-column width a reached node asks for: its label plus two columns per labelled level. */
  function PathLen(hit: Hit): (len: nat)
    ensures |hit.node.labelValue| <= len <= |hit.node.labelValue| + 2 * (1 + |hit.ancestorKeys|)
    ensures hit.node.labelKey.None? ==> len == |hit.node.labelValue|
    ensures hit.node.labelKey.Some? ==> len >= |hit.node.labelValue| + 2
  {
    |hit.node.labelValue| + 2 * LabelledDepth(KeyChain(hit))
  }

  /** The loop in `add` that walks up the parent chain while label keys are valid. */
  method PathColumnLen(hit: Hit) returns (len: nat)
    ensures len == PathLen(hit)
    ensures len >= |hit.node.labelValue|
    ensures hit.node.labelKey.Some? ==> len >= |hit.node.labelValue| + 2
  {
    var chain := KeyChain(hit);
    len := |hit.node.labelValue|;
    var n := 0;
    while n < |chain| && chain[n].Some?
      invariant 0 <= n <= |chain|
      invariant forall i | 0 <= i < n :: chain[i].Some?
      invariant len == |hit.node.labelValue| + 2 * n
    {
      len := len + 2;
      n := n + 1;
    }
    LabelledDepthIs(chain, n);
  }

  /** LabelledDepth is the one count whose prefix is valid and whose next entry is not. */
  lemma {:induction false} LabelledDepthIs(chain: seq<Option<Attribute>>, n: nat)
    requires n <= |chain|
    requires forall i | 0 <= i < n :: chain[i].Some?
    requires n < |chain| ==> chain[n].None?
    ensures LabelledDepth(chain) == n
    decreases n
  {
    if n > 0 {
      LabelledDepthIs(chain[1..], n - 1);
    }
  }
}
