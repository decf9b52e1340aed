/** Canonical request targets: a normal form for path and query. */
module RequestTarget {
  import opened Bytes
  import opened Canonical
  import opened PercentEncoding
  import opened DotSegments

  const QUESTION: byte := 0x3f
  const AMPERSAND: byte := 0x26
  const EQUALS: byte := 0x3d
  const PLUS: byte := 0x2b

  /** Printable ASCII without backslash and hash. */
  predicate LegalByte(b: byte) {
    0x20 <= b < 0x7f && b != 0x5c && b != 0x23
  }

  predicate Legal(value: Bytes) {
    value != [] && value[0] == SLASH && forall i :: 0 <= i < |value| ==> LegalByte(value[i])
  }

  // ----- query pairs

  datatype Pair = Pair(key: Bytes, value: Bytes, hadEquals: bool)

  /** `split('&')` and friends: never empty. */
  function SplitAll(v: Bytes, sep: byte): (r: seq<Bytes>)
    ensures r != []
  {
    var i := IndexOf(v, sep);
    if i == |v| then [v] else [v[..i]] + SplitAll(v[i + 1..], sep)
  }

  function JoinAll(parts: seq<Bytes>, sep: byte): Bytes
    requires parts != []
  {
    if |parts| == 1 then parts[0] else parts[0] + [sep] + JoinAll(parts[1..], sep)
  }

  /** Key, value and whether there was an equals sign, as spelled. */
  function SplitPair(piece: Bytes): Pair {
    var i := IndexOf(piece, EQUALS);
    if i == |piece| then Pair(piece, [], false) else Pair(piece[..i], piece[i + 1..], true)
  }

  function PrintPair(p: Pair): Bytes {
    if p.hadEquals then p.key + [EQUALS] + p.value else p.key
  }

  function NormalizePair(p: Pair): Option<Pair> {
    if p.key == [] then None
    else
      match (Normalize(Query, p.key), Normalize(Query, p.value))
      case (Some(key), Some(value)) => Some(Pair(key, value, p.hadEquals))
      case _ => None
  }

  function NormalizePairs(pieces: seq<Bytes>): (r: Option<seq<Pair>>)
    ensures r.Some? ==> |r.value| == |pieces|
  {
    if pieces == [] then Some([])
    else
      match (NormalizePair(SplitPair(pieces[0])), NormalizePairs(pieces[1..]))
      case (Some(p), Some(ps)) => Some([p] + ps)
      case _ => None
  }

  // ----- the order of `sort_unstable`

  /** Lexicographic order on bytes, a proper prefix first. */
  predicate BytesLeq(a: Bytes, b: Bytes) {
    a == [] || (b != [] && (a[0] < b[0] || (a[0] == b[0] && BytesLeq(a[1..], b[1..]))))
  }

  predicate PairLeq(p: Pair, q: Pair) {
    if p.key != q.key then BytesLeq(p.key, q.key)
    else if p.value != q.value then BytesLeq(p.value, q.value)
    else !p.hadEquals || q.hadEquals
  }

  lemma {:induction false} BytesTotal(a: Bytes, b: Bytes)
    ensures BytesLeq(a, b) || BytesLeq(b, a)
    ensures BytesLeq(a, b) && BytesLeq(b, a) ==> a == b
  {
    if a != [] && b != [] {
      BytesTotal(a[1..], b[1..]);
      if a[0] == b[0] && a[1..] == b[1..] {
        assert a == [a[0]] + a[1..] && b == [b[0]] + b[1..];
      }
    }
  }

  lemma {:induction false} BytesTransitive(a: Bytes, b: Bytes, c: Bytes)
    requires BytesLeq(a, b) && BytesLeq(b, c)
    ensures BytesLeq(a, c)
  {
    if a != [] && a[0] == b[0] == c[0] {
      BytesTransitive(a[1..], b[1..], c[1..]);
    }
  }

  lemma PairTotal(p: Pair, q: Pair)
    ensures PairLeq(p, q) || PairLeq(q, p)
    ensures PairLeq(p, q) && PairLeq(q, p) ==> p == q
  {
    BytesTotal(p.key, q.key);
    BytesTotal(p.value, q.value);
  }

  lemma PairTransitive(p: Pair, q: Pair, r: Pair)
    requires PairLeq(p, q) && PairLeq(q, r)
    ensures PairLeq(p, r)
  {
    BytesTotal(p.key, q.key);
    BytesTotal(p.value, q.value);
    if BytesLeq(p.key, q.key) && BytesLeq(q.key, r.key) {
      BytesTransitive(p.key, q.key, r.key);
    }
    if BytesLeq(p.value, q.value) && BytesLeq(q.value, r.value) {
      BytesTransitive(p.value, q.value, r.value);
    }
    BytesTotal(q.key, r.key);
    BytesTotal(p.key, r.key);
    BytesTotal(q.value, r.value);
    BytesTotal(p.value, r.value);
  }

  ghost predicate Sorted(ps: seq<Pair>) {
    forall i, j :: 0 <= i < j < |ps| ==> PairLeq(ps[i], ps[j])
  }

  function Insert(p: Pair, ps: seq<Pair>): seq<Pair> {
    if ps == [] || PairLeq(p, ps[0]) then [p] + ps else [ps[0]] + Insert(p, ps[1..])
  }

  /** A sort; `SortUnique` shows that every sort of the same pairs gives this list. */
  function Sort(ps: seq<Pair>): (r: seq<Pair>)
    ensures ps != [] ==> r != []
  {
    if ps == [] then [] else Insert(ps[0], Sort(ps[1..]))
  }

  lemma {:induction false} InsertSorts(p: Pair, ps: seq<Pair>)
    requires Sorted(ps)
    ensures Sorted(Insert(p, ps)) && multiset(Insert(p, ps)) == multiset(ps) + multiset{p}
  {
    if ps != [] {
      assert ps == [ps[0]] + ps[1..];
      if PairLeq(p, ps[0]) {
        forall j | 0 <= j < |ps| ensures PairLeq(p, ps[j]) {
          if j > 0 { PairTransitive(p, ps[0], ps[j]); }
        }
      } else {
        PairTotal(p, ps[0]);
        InsertSorts(p, ps[1..]);
        var rest := Insert(p, ps[1..]);
        forall j | 0 <= j < |rest| ensures PairLeq(ps[0], rest[j]) {
          assert rest[j] in multiset(rest);
          assert rest[j] == p || rest[j] in ps[1..];
        }
      }
    }
  }

  lemma {:induction false} SortSorts(ps: seq<Pair>)
    ensures Sorted(Sort(ps)) && multiset(Sort(ps)) == multiset(ps)
  {
    if ps != [] {
      SortSorts(ps[1..]);
      InsertSorts(ps[0], Sort(ps[1..]));
      assert ps == [ps[0]] + ps[1..];
    }
  }

  lemma TailOf(ps: seq<Pair>)
    requires ps != [] && Sorted(ps)
    ensures multiset(ps[1..]) == multiset(ps) - multiset{ps[0]} && Sorted(ps[1..])
    ensures ps == [ps[0]] + ps[1..]
  {
    assert ps == [ps[0]] + ps[1..];
  }

  lemma SameSize(ps: seq<Pair>, qs: seq<Pair>)
    requires multiset(ps) == multiset(qs)
    ensures |ps| == |qs|
  {
    assert |multiset(ps)| == |ps| && |multiset(qs)| == |qs|;
  }

  /** Sorted lists of the same pairs are the same list. */
  lemma {:induction false} SortUnique(ps: seq<Pair>, qs: seq<Pair>)
    requires Sorted(ps) && Sorted(qs) && multiset(ps) == multiset(qs)
    ensures ps == qs
  {
    SameSize(ps, qs);
    if ps != [] {
      FirstsEqual(ps, qs);
      TailOf(ps);
      TailOf(qs);
      SortUnique(ps[1..], qs[1..]);
    }
  }

  lemma FirstsEqual(ps: seq<Pair>, qs: seq<Pair>)
    requires Sorted(ps) && Sorted(qs) && multiset(ps) == multiset(qs) && ps != [] && qs != []
    ensures ps[0] == qs[0]
  {
    assert ps[0] in multiset(qs) && qs[0] in multiset(ps);
    var i :| 0 <= i < |qs| && qs[i] == ps[0];
    var j :| 0 <= j < |ps| && ps[j] == qs[0];
    PairTotal(ps[0], qs[0]);
  }

  // ----- the target

  /** The bytes before and after the first question mark. */
  function PathPart(value: Bytes): Bytes { value[..IndexOf(value, QUESTION)] }

  function QueryPart(value: Bytes): Bytes {
    var i := IndexOf(value, QUESTION);
    if i == |value| then [] else value[i + 1..]
  }

  function PrintPairs(ps: seq<Pair>): (r: seq<Bytes>)
    ensures |r| == |ps|
  {
    seq(|ps|, i requires 0 <= i < |ps| => PrintPair(ps[i]))
  }

  function PrintTarget(path: Bytes, ps: seq<Pair>): Bytes {
    if ps == [] then path else path + [QUESTION] + JoinAll(PrintPairs(ps), AMPERSAND)
  }

  /** The normalised pairs of a query, in the order they were written. */
  function QueryPairs(query: Bytes): Option<seq<Pair>> {
    if query == [] then Some([])
    else if PLUS in query then None
    else NormalizePairs(SplitAll(query, AMPERSAND))
  }

  function CanonicalTarget(value: Bytes): Result<Bytes, CanonicalError> {
    if !Legal(value) then Err(InvalidRequestTarget)
    else
      match (Normalize(Path, PathPart(value)), QueryPairs(QueryPart(value)))
      case (Some(path), Some(ps)) => Ok(PrintTarget(Removed(path, []), Sort(ps)))
      case _ => Err(InvalidRequestTarget)
  }

  // ----- reading back what was printed

  /** A pair as normalisation leaves it. */
  ghost predicate Good(p: Pair) {
    Normal(Query, p.key) && Normal(Query, p.value) && p.key != [] && (p.hadEquals || p.value == [])
  }

  ghost predicate AllGood(ps: seq<Pair>) {
    forall i :: 0 <= i < |ps| ==> Good(ps[i])
  }

  lemma NormalizeEmptyIff(c: Component, v: Bytes)
    requires Normalize(c, v).Some?
    ensures Normalize(c, v).value == [] <==> v == []
  {
    if v != [] {
      NormalizeStep(c, v);
    }
  }

  lemma NormalizePairGood(piece: Bytes)
    requires NormalizePair(SplitPair(piece)).Some?
    ensures Good(NormalizePair(SplitPair(piece)).value)
  {
    var p := SplitPair(piece);
    NormalizeIsNormal(Query, p.key);
    NormalizeIsNormal(Query, p.value);
    NormalizeEmptyIff(Query, p.key);
    NormalizeEmptyIff(Query, p.value);
  }

  lemma {:induction false} NormalizePairsGood(pieces: seq<Bytes>)
    requires NormalizePairs(pieces).Some?
    ensures AllGood(NormalizePairs(pieces).value)
    ensures forall i :: 0 <= i < |pieces| ==>
      NormalizePair(SplitPair(pieces[i])) == Some(NormalizePairs(pieces).value[i])
  {
    if pieces != [] {
      NormalizePairsFirst(pieces);
      NormalizePairGood(pieces[0]);
      NormalizePairsGood(pieces[1..]);
    }
  }

  lemma NormalizePairsFirst(pieces: seq<Bytes>)
    requires pieces != [] && NormalizePairs(pieces).Some?
    ensures NormalizePair(SplitPair(pieces[0])).Some? && NormalizePairs(pieces[1..]).Some?
    ensures NormalizePairs(pieces).value
         == [NormalizePair(SplitPair(pieces[0])).value] + NormalizePairs(pieces[1..]).value
  {
  }

  /** Normal query spellings keep clear of every delimiter. */
  lemma QueryBytes(v: Bytes)
    requires Normal(Query, v)
    ensures forall b :: b in v ==> LegalByte(b) && b != EQUALS && b != AMPERSAND && b != PLUS && b != QUESTION
  {
    NormalSpellable(Query, v);
  }

  ghost predicate Clean(v: Bytes) {
    forall b :: b in v ==> LegalByte(b) && b != AMPERSAND && b != PLUS
  }

  lemma SplitPairInverts(p: Pair)
    requires Free(p.key, EQUALS) && (p.hadEquals || p.value == [])
    ensures SplitPair(PrintPair(p)) == p
  {
    CutAt(p.key, EQUALS, p.value);
  }

  lemma ReadPair(p: Pair)
    requires Good(p)
    ensures SplitPair(PrintPair(p)) == p && NormalizePair(p) == Some(p)
    ensures Clean(PrintPair(p)) && PrintPair(p) != []
  {
    QueryBytes(p.key);
    QueryBytes(p.value);
    SplitPairInverts(p);
    NormalIffFixed(Query, p.key);
    NormalIffFixed(Query, p.value);
  }

  lemma SplitCut(a: Bytes, rest: Bytes, sep: byte)
    requires Free(a, sep)
    ensures SplitAll(a + [sep] + rest, sep) == [a] + SplitAll(rest, sep)
  {
    CutAt(a, sep, rest);
  }

  lemma {:induction false} SplitInvertsJoin(parts: seq<Bytes>, sep: byte)
    requires parts != [] && AllFree(parts, sep)
    ensures SplitAll(JoinAll(parts, sep), sep) == parts
  {
    if |parts| == 1 {
      CutAt(parts[0], sep, []);
      assert parts == [parts[0]];
    } else {
      SplitInvertsJoin(parts[1..], sep);
      SplitCut(parts[0], JoinAll(parts[1..], sep), sep);
      assert parts == [parts[0]] + parts[1..];
    }
  }

  lemma {:induction false} ReadPieces(ps: seq<Pair>)
    requires AllGood(ps)
    ensures NormalizePairs(PrintPairs(ps)) == Some(ps)
  {
    if ps != [] {
      ReadPair(ps[0]);
      ReadPieces(ps[1..]);
      PrintFirst(ps);
    }
  }

  lemma PrintFirst(ps: seq<Pair>)
    requires ps != []
    ensures PrintPairs(ps) != [] && PrintPairs(ps)[0] == PrintPair(ps[0]) && PrintPairs(ps)[1..] == PrintPairs(ps[1..])
    ensures ps == [ps[0]] + ps[1..]
  {
  }

  lemma {:induction false} JoinBytes(parts: seq<Bytes>)
    requires parts != [] && forall i :: 0 <= i < |parts| ==> Clean(parts[i]) && parts[i] != []
    ensures JoinAll(parts, AMPERSAND) != [] && PLUS !in JoinAll(parts, AMPERSAND)
    ensures forall b :: b in JoinAll(parts, AMPERSAND) ==> LegalByte(b)
  {
    if |parts| > 1 {
      JoinBytes(parts[1..]);
    }
  }

  /** The printed query reads back as the same pairs. */
  lemma ReadQuery(ps: seq<Pair>)
    requires AllGood(ps) && ps != []
    ensures var query := JoinAll(PrintPairs(ps), AMPERSAND);
            query != [] && QueryPairs(query) == Some(ps) && forall b :: b in query ==> LegalByte(b)
  {
    var parts := PrintPairs(ps);
    forall i | 0 <= i < |parts| ensures Clean(parts[i]) && parts[i] != [] && Free(parts[i], AMPERSAND) {
      ReadPair(ps[i]);
    }
    JoinBytes(parts);
    SplitInvertsJoin(parts, AMPERSAND);
    ReadPieces(ps);
  }

  ghost predicate AllLegal(v: Bytes) {
    forall b :: b in v ==> LegalByte(b)
  }

  lemma PathBytes(path: Bytes)
    requires Normal(Path, path)
    ensures Free(path, QUESTION) && AllLegal(path)
  {
    NormalSpellable(Path, path);
  }

  lemma LegalParts(path: Bytes, query: Bytes)
    requires path != [] && path[0] == SLASH && AllLegal(path) && AllLegal(query)
    ensures Legal(path) && Legal(path + [QUESTION] + query)
  {
    var v := path + [QUESTION] + query;
    assert forall i :: 0 <= i < |v| ==> v[i] in path || v[i] == QUESTION || v[i] in query;
  }

  /** The printed target reads back as the same path and pairs. */
  lemma ReadTarget(path: Bytes, ps: seq<Pair>)
    requires AllGood(ps) && path != [] && path[0] == SLASH && Normal(Path, path)
    ensures var v := PrintTarget(path, ps);
            Legal(v) && PathPart(v) == path && QueryPairs(QueryPart(v)) == Some(ps)
  {
    PathBytes(path);
    if ps == [] {
      CutAt(path, QUESTION, []);
      LegalParts(path, []);
      assert path[..|path|] == path;
    } else {
      ReadQuery(ps);
      var query := JoinAll(PrintPairs(ps), AMPERSAND);
      CutAt(path, QUESTION, query);
      LegalParts(path, query);
    }
  }

  // ----- the normal form

  function NormalPath(value: Bytes): Bytes
    requires CanonicalTarget(value).Ok?
  {
    Normalize(Path, PathPart(value)).value
  }

  /** The resolved segments of the path. */
  function ResolvedPath(value: Bytes): seq<Bytes>
    requires CanonicalTarget(value).Ok?
  {
    PathRooted(value);
    Resolve([], Segments(NormalPath(value)))
  }

  function Pairs(value: Bytes): seq<Pair>
    requires CanonicalTarget(value).Ok?
  {
    QueryPairs(QueryPart(value)).value
  }

  lemma PathRooted(value: Bytes)
    requires CanonicalTarget(value).Ok?
    ensures NormalPath(value) != [] && NormalPath(value)[0] == SLASH && Normal(Path, NormalPath(value))
  {
    var path := PathPart(value);
    assert path != [] && path[0] == SLASH;
    NormalizeStep(Path, path);
    NormalizeIsNormal(Path, path);
  }

  /** What an accepted target prints: its resolved path and its sorted pairs. */
  lemma CanonicalShape(value: Bytes)
    requires CanonicalTarget(value).Ok?
    ensures CanonicalTarget(value) == Ok(PrintTarget(Rooted(ResolvedPath(value)), Sort(Pairs(value))))
    ensures AllGood(Pairs(value)) && AllGood(Sort(Pairs(value)))
    ensures var path := Rooted(ResolvedPath(value));
            path != [] && path[0] == SLASH && Normal(Path, path) && Removed(path, []) == path
  {
    PathRooted(value);
    RemovedOnRooted(NormalPath(value));
    DotFreeIsFixed(NormalPath(value));
    DotRemovalKeepsNormal(NormalPath(value));
    RemovedOnRooted(Rooted(ResolvedPath(value)));
    if QueryPart(value) != [] {
      NormalizePairsGood(SplitAll(QueryPart(value), AMPERSAND));
    }
    SortGood(Pairs(value));
  }

  lemma SortGood(ps: seq<Pair>)
    requires AllGood(ps)
    ensures AllGood(Sort(ps))
  {
    SortSorts(ps);
    forall i | 0 <= i < |Sort(ps)| ensures Good(Sort(ps)[i]) {
      assert Sort(ps)[i] in multiset(Sort(ps));
    }
  }

  /** Canonicalising twice is canonicalising once. */
  lemma CanonicalIdempotent(value: Bytes)
    requires CanonicalTarget(value).Ok?
    ensures CanonicalTarget(CanonicalTarget(value).value) == CanonicalTarget(value)
  {
    var path, ps := Rooted(ResolvedPath(value)), Sort(Pairs(value));
    CanonicalShape(value);
    ReadTarget(path, ps);
    NormalIffFixed(Path, path);
    SortSorts(Pairs(value));
    SortSorts(ps);
    SortUnique(Sort(ps), ps);
  }

  // ----- what two targets must share to have one normal form

  function DecodePair(p: Pair): Option<Pair> {
    match (Decode(p.key), Decode(p.value))
    case (Some(key), Some(value)) => Some(Pair(key, value, p.hadEquals))
    case _ => None
  }

  function DecodePairs(ps: seq<Pair>): (r: seq<Option<Pair>>)
    ensures |r| == |ps|
    ensures forall i :: 0 <= i < |r| ==> r[i] == DecodePair(ps[i])
  {
    seq(|ps|, i requires 0 <= i < |ps| => DecodePair(ps[i]))
  }

  /** The pairs of the query as spelled, decoded. */
  function DecodedQuery(value: Bytes): seq<Option<Pair>> {
    var query := QueryPart(value);
    if query == [] then []
    else
      var pieces := SplitAll(query, AMPERSAND);
      seq(|pieces|, i requires 0 <= i < |pieces| => DecodePair(SplitPair(pieces[i])))
  }

  lemma DecodeOfNormalized(v: Bytes)
    requires Normalize(Query, v).Some?
    ensures Decode(Normalize(Query, v).value) == Decode(v)
  {
    NormalizeIsNormal(Query, v);
    var ts := Tokens(v).value;
    assert DecodedAll(CanonAll(Query, ts)) == DecodedAll(ts);
  }

  lemma DecodePiece(p: Pair)
    requires NormalizePair(p).Some?
    ensures DecodePair(NormalizePair(p).value) == DecodePair(p)
  {
    DecodeOfNormalized(p.key);
    DecodeOfNormalized(p.value);
  }

  lemma DecodedQueryOfPairs(value: Bytes)
    requires CanonicalTarget(value).Ok?
    ensures DecodedQuery(value) == DecodePairs(Pairs(value))
  {
    var query := QueryPart(value);
    if query != [] {
      var pieces := SplitAll(query, AMPERSAND);
      NormalizePairsGood(pieces);
      var ps := NormalizePairs(pieces).value;
      assert Pairs(value) == ps;
      forall i | 0 <= i < |pieces| ensures DecodePair(SplitPair(pieces[i])) == DecodePair(ps[i]) {
        DecodePiece(SplitPair(pieces[i]));
      }
    }
  }

  lemma DecodePairInjective(p: Pair, q: Pair)
    requires Good(p) && Good(q)
    ensures DecodePair(p) == DecodePair(q) <==> p == q
  {
    NormalIffFixed(Query, p.key);
    NormalIffFixed(Query, q.key);
    NormalIffFixed(Query, p.value);
    NormalIffFixed(Query, q.value);
    QueryNormalIsDecoded(p.key, q.key);
    QueryNormalIsDecoded(p.value, q.value);
  }

  /** Decoding keeps multiplicities. */
  lemma {:induction false} DecodeCounts(ps: seq<Pair>, p: Pair)
    requires AllGood(ps) && Good(p)
    ensures multiset(DecodePairs(ps))[DecodePair(p)] == multiset(ps)[p]
  {
    if ps != [] {
      DecodeCounts(ps[1..], p);
      DecodePairInjective(ps[0], p);
      DecodeFirst(ps);
    }
  }

  lemma DecodeFirst(ps: seq<Pair>)
    requires ps != []
    ensures multiset(ps) == multiset{ps[0]} + multiset(ps[1..])
    ensures multiset(DecodePairs(ps)) == multiset{DecodePair(ps[0])} + multiset(DecodePairs(ps[1..]))
  {
    assert ps == [ps[0]] + ps[1..];
    assert DecodePairs(ps) == [DecodePair(ps[0])] + DecodePairs(ps[1..]);
  }

  lemma DecodedMultisets(ps: seq<Pair>, qs: seq<Pair>)
    requires AllGood(ps) && AllGood(qs)
    ensures multiset(ps) == multiset(qs) <==> multiset(DecodePairs(ps)) == multiset(DecodePairs(qs))
  {
    if multiset(DecodePairs(ps)) == multiset(DecodePairs(qs)) {
      forall p ensures multiset(ps)[p] == multiset(qs)[p] {
        CountsFromDecoded(ps, qs, p);
      }
    }
    if multiset(ps) == multiset(qs) {
      forall d ensures multiset(DecodePairs(ps))[d] == multiset(DecodePairs(qs))[d] {
        DecodedFromCounts(ps, qs, d);
      }
    }
  }

  lemma CountsFromDecoded(ps: seq<Pair>, qs: seq<Pair>, p: Pair)
    requires AllGood(ps) && AllGood(qs) && multiset(DecodePairs(ps)) == multiset(DecodePairs(qs))
    ensures multiset(ps)[p] == multiset(qs)[p]
  {
    if p in ps || p in qs {
      DecodeCounts(ps, p);
      DecodeCounts(qs, p);
    }
  }

  lemma DecodedFromCounts(ps: seq<Pair>, qs: seq<Pair>, d: Option<Pair>)
    requires AllGood(ps) && AllGood(qs) && multiset(ps) == multiset(qs)
    ensures multiset(DecodePairs(ps))[d] == multiset(DecodePairs(qs))[d]
  {
    if d in DecodePairs(ps) {
      var i :| 0 <= i < |ps| && DecodePairs(ps)[i] == d;
      DecodeCounts(ps, ps[i]);
      DecodeCounts(qs, ps[i]);
    } else if d in DecodePairs(qs) {
      var i :| 0 <= i < |qs| && DecodePairs(qs)[i] == d;
      DecodeCounts(ps, qs[i]);
      DecodeCounts(qs, qs[i]);
    }
  }

  /** A true normal form: two accepted targets print alike exactly when their paths resolve to the
      same segments and their queries hold the same decoded pairs, in whatever order and spelling. */
  lemma SameTargetIff(a: Bytes, b: Bytes)
    requires CanonicalTarget(a).Ok? && CanonicalTarget(b).Ok?
    ensures CanonicalTarget(a) == CanonicalTarget(b) <==>
      ResolvedPath(a) == ResolvedPath(b) && multiset(DecodedQuery(a)) == multiset(DecodedQuery(b))
  {
    CanonicalShape(a);
    CanonicalShape(b);
    SortSorts(Pairs(a));
    SortSorts(Pairs(b));
    DecodedQueryOfPairs(a);
    DecodedQueryOfPairs(b);
    DecodedMultisets(Pairs(a), Pairs(b));
    if CanonicalTarget(a) == CanonicalTarget(b) {
      ReadTarget(Rooted(ResolvedPath(a)), Sort(Pairs(a)));
      ReadTarget(Rooted(ResolvedPath(b)), Sort(Pairs(b)));
      ResolvedSegments(a);
      ResolvedSegments(b);
    } else if multiset(Pairs(a)) == multiset(Pairs(b)) {
      SortUnique(Sort(Pairs(a)), Sort(Pairs(b)));
    }
  }

  lemma ResolvedSegments(value: Bytes)
    requires CanonicalTarget(value).Ok?
    ensures IsRooted(Rooted(ResolvedPath(value))) && Segments(Rooted(ResolvedPath(value))) == ResolvedPath(value)
  {
    PathRooted(value);
    DotFreeIsFixed(NormalPath(value));
  }

  // ----- the order of the printed pairs

  /** A proper prefix, or smaller at the first byte that differs. */
  ghost predicate Before(a: Bytes, b: Bytes) {
    exists k :: 0 <= k <= |a| && k < |b| && a[..k] == b[..k] && (k == |a| || a[k] < b[k])
  }

  lemma {:induction false} BytesOrderIff(a: Bytes, b: Bytes)
    ensures BytesLeq(a, b) && a != b <==> Before(a, b)
  {
    if a == [] {
      assert b != [] ==> a[..0] == b[..0];
    } else if b != [] {
      var x, y := a[1..], b[1..];
      BytesOrderIff(x, y);
      assert a == [a[0]] + x && b == [b[0]] + y;
      if a[0] < b[0] {
        assert a[..0] == b[..0];
      } else if a[0] == b[0] && Before(x, y) {
        var k :| 0 <= k <= |x| && k < |y| && x[..k] == y[..k] && (k == |x| || x[k] < y[k]);
        assert a[..k + 1] == [a[0]] + x[..k] && b[..k + 1] == [b[0]] + y[..k];
      }
      if Before(a, b) {
        BeforeTail(a, b);
      }
    }
  }

  lemma BeforeTail(a: Bytes, b: Bytes)
    requires a != [] && b != [] && Before(a, b)
    ensures a[0] < b[0] || (a[0] == b[0] && Before(a[1..], b[1..]))
  {
    var k :| 0 <= k <= |a| && k < |b| && a[..k] == b[..k] && (k == |a| || a[k] < b[k]);
    if k > 0 {
      assert a[0] == a[..k][0] && b[0] == b[..k][0];
      assert a[1..][..k - 1] == a[..k][1..] && b[1..][..k - 1] == b[..k][1..];
    }
  }

  /** By key, then by value, then the pair without an equals sign first. */
  ghost predicate InOrder(p: Pair, q: Pair) {
    || p == q
    || Before(p.key, q.key)
    || (p.key == q.key && Before(p.value, q.value))
    || (p.key == q.key && p.value == q.value && !p.hadEquals && q.hadEquals)
  }

  lemma PairOrderIff(p: Pair, q: Pair)
    ensures PairLeq(p, q) <==> InOrder(p, q)
  {
    BytesOrderIff(p.key, q.key);
    BytesOrderIff(p.value, q.value);
    NeverBeforeItself(p.key);
    NeverBeforeItself(p.value);
  }

  lemma NeverBeforeItself(a: Bytes)
    ensures !Before(a, a)
  {
  }

  lemma {:induction false} JoinInvertsSplit(v: Bytes, sep: byte)
    ensures JoinAll(SplitAll(v, sep), sep) == v && AllFree(SplitAll(v, sep), sep)
    decreases |v|
  {
    var i := IndexOf(v, sep);
    if i < |v| {
      JoinInvertsSplit(v[i + 1..], sep);
      assert v == v[..i] + [sep] + v[i + 1..];
      assert SplitAll(v, sep)[1..] == SplitAll(v[i + 1..], sep);
    }
  }

  /** The key is what precedes the first equals sign. */
  lemma PieceParts(piece: Bytes)
    ensures var p := SplitPair(piece);
            Free(p.key, 0x3d) && piece == if p.hadEquals then p.key + [0x3d] + p.value else p.key
    ensures SplitPair(piece).hadEquals <==> 0x3d in piece
    ensures !SplitPair(piece).hadEquals ==> SplitPair(piece).value == []
  {
    var i := IndexOf(piece, EQUALS);
    assert i < |piece| ==> piece == piece[..i] + [EQUALS] + piece[i + 1..];
  }

  /** The pieces of the printed query between its ampersands. */
  function PrintedPairs(target: Bytes): seq<Pair> {
    if QueryPart(target) == [] then []
    else
      var pieces := SplitAll(QueryPart(target), 0x26);
      seq(|pieces|, i requires 0 <= i < |pieces| => SplitPair(pieces[i]))
  }

  /** The printed pairs are the normalised pairs of the query, all of them, in order. */
  lemma PrintedInOrder(value: Bytes)
    requires CanonicalTarget(value).Ok?
    ensures
      var printed := PrintedPairs(CanonicalTarget(value).value);
      && multiset(printed) == multiset(Pairs(value))
      && forall i, j :: 0 <= i < j < |printed| ==> InOrder(printed[i], printed[j])
  {
    CanonicalShape(value);
    var path, ps := Rooted(ResolvedPath(value)), Sort(Pairs(value));
    SortSorts(Pairs(value));
    PrintedAre(path, ps);
    forall i, j | 0 <= i < j < |ps| ensures InOrder(ps[i], ps[j]) {
      PairOrderIff(ps[i], ps[j]);
    }
  }

  lemma PrintedAre(path: Bytes, ps: seq<Pair>)
    requires AllGood(ps) && path != [] && path[0] == SLASH && Normal(Path, path)
    ensures PrintedPairs(PrintTarget(path, ps)) == ps
  {
    PathBytes(path);
    if ps == [] {
      CutAt(path, QUESTION, []);
    } else {
      ReadQuery(ps);
      var parts := PrintPairs(ps);
      CutAt(path, QUESTION, JoinAll(parts, AMPERSAND));
      forall i | 0 <= i < |ps| ensures Free(parts[i], AMPERSAND) && SplitPair(parts[i]) == ps[i] {
        ReadPair(ps[i]);
      }
      SplitInvertsJoin(parts, AMPERSAND);
    }
  }

  // ----- which targets are accepted

  /** No escape reaches over a delimiter. */
  lemma WellEscapedPair(a: Bytes, sep: byte, b: Bytes)
    requires sep as char == '?' || sep as char == '&' || sep as char == '='
    ensures WellEscaped(a + [sep] + b) <==> WellEscaped(a) && WellEscaped(b)
  {
    var v := a + [sep] + b;
    forall i | 0 <= i < |v|
      ensures EscapeAt(v, i) <==> if i < |a| then EscapeAt(a, i) else i == |a| || EscapeAt(b, i - |a| - 1)
    {
      EscapeWithin(a, sep, b, i);
    }
    if WellEscaped(v) {
      assert forall i :: 0 <= i < |a| ==> EscapeAt(v, i);
      forall i | 0 <= i < |b| ensures EscapeAt(b, i) {
        assert EscapeAt(v, |a| + 1 + i);
      }
    }
  }

  lemma EscapeWithin(a: Bytes, sep: byte, b: Bytes, i: nat)
    requires sep as char == '?' || sep as char == '&' || sep as char == '='
    requires i <= |a| + |b|
    ensures EscapeAt(a + [sep] + b, i) <==> if i < |a| then EscapeAt(a, i) else i == |a| || EscapeAt(b, i - |a| - 1)
  {
  }

  lemma NormalizesPairIff(piece: Bytes)
    ensures NormalizePair(SplitPair(piece)).Some? <==> WellEscaped(piece) && piece != [] && piece[0] as char != '='
  {
    var p := SplitPair(piece);
    PieceParts(piece);
    NormalizesIff(Query, p.key);
    NormalizesIff(Query, p.value);
    if p.hadEquals {
      WellEscapedPair(p.key, EQUALS, p.value);
    }
    if p.key != [] {
      assert p.key[0] in p.key;
      assert piece[0] == p.key[0];
    }
  }

  ghost predicate GoodPiece(piece: Bytes) { piece != [] && piece[0] as char != '=' }

  ghost predicate GoodPieces(pieces: seq<Bytes>) {
    forall i :: 0 <= i < |pieces| ==> GoodPiece(pieces[i])
  }

  ghost predicate EachEscaped(pieces: seq<Bytes>) {
    forall i :: 0 <= i < |pieces| ==> WellEscaped(pieces[i])
  }

  lemma {:induction false} NormalizesPiecesIff(pieces: seq<Bytes>)
    ensures NormalizePairs(pieces).Some? <==> EachEscaped(pieces) && GoodPieces(pieces)
  {
    if pieces != [] {
      NormalizesPairIff(pieces[0]);
      NormalizesPiecesIff(pieces[1..]);
      assert pieces == [pieces[0]] + pieces[1..];
    }
  }

  lemma {:induction false} JoinedEscapes(pieces: seq<Bytes>)
    requires pieces != []
    ensures WellEscaped(JoinAll(pieces, AMPERSAND)) <==> EachEscaped(pieces)
  {
    assert pieces == [pieces[0]] + pieces[1..];
    if |pieces| > 1 {
      JoinedEscapes(pieces[1..]);
      WellEscapedPair(pieces[0], AMPERSAND, JoinAll(pieces[1..], AMPERSAND));
    }
  }

  /**
   * A target is accepted exactly when it starts with a slash, is printable ASCII without backslash and
   * hash, has only whole escapes, and has a query without plus signs whose pieces all have a key.
   */
  lemma AcceptedIff(value: Bytes)
    ensures CanonicalTarget(value).Ok? <==>
      && value != [] && value[0] as char == '/' && WellEscaped(value)
      && (forall i :: 0 <= i < |value| ==>
            ' ' <= value[i] as char <= '~' && value[i] as char != '\\' && value[i] as char != '#')
      && (QueryPart(value) == [] || (0x2b !in QueryPart(value) && GoodPieces(SplitAll(QueryPart(value), 0x26))))
    ensures CanonicalTarget(value).Err? ==> CanonicalTarget(value) == Err(InvalidRequestTarget)
  {
    WellEscapedParts(value);
    NormalizesIff(Path, PathPart(value));
    AcceptsQueryIff(QueryPart(value));
  }

  lemma AcceptsQueryIff(query: Bytes)
    ensures QueryPairs(query).Some? <==>
      query == [] || (WellEscaped(query) && 0x2b !in query && GoodPieces(SplitAll(query, 0x26)))
  {
    var pieces := SplitAll(query, AMPERSAND);
    NormalizesPiecesIff(pieces);
    JoinInvertsSplit(query, AMPERSAND);
    JoinedEscapes(pieces);
  }

  lemma WellEscapedParts(value: Bytes)
    ensures WellEscaped(value) <==> WellEscaped(PathPart(value)) && WellEscaped(QueryPart(value))
  {
    TargetParts(value);
    WellEscapedPair(PathPart(value), QUESTION, QueryPart(value));
  }

  /** The path and the query are what precedes and follows the first question mark. */
  lemma TargetParts(value: Bytes)
    ensures Free(PathPart(value), 0x3f)
    ensures 0x3f !in value ==> value == PathPart(value) && QueryPart(value) == []
    ensures 0x3f in value ==> value == PathPart(value) + [0x3f] + QueryPart(value)
  {
    var i := IndexOf(value, QUESTION);
    assert i < |value| ==> value == value[..i] + [QUESTION] + value[i + 1..];
  }

  // ----- the function as written

  /** The output loop: pairs joined by ampersands behind a question mark. */
  method PrintQuery(path: Bytes, ps: seq<Pair>) returns (output: Bytes)
    requires ps != []
    ensures output == PrintTarget(path, ps)
  {
    output := path + [QUESTION];
    for index := 0 to |ps|
      invariant index == 0 ==> output == path + [QUESTION]
      invariant index > 0 ==> output == path + [QUESTION] + JoinAll(PrintPairs(ps[..index]), AMPERSAND)
    {
      if index != 0 {
        output := output + [AMPERSAND];
      }
      ghost var separated := output;
      output := output + ps[index].key;
      if ps[index].hadEquals {
        output := output + [EQUALS];
        output := output + ps[index].value;
      }
      assert output == separated + PrintPair(ps[index]);
      JoinAppend(path + [QUESTION], ps[..index], ps[index]);
      assert ps[..index + 1] == ps[..index] + [ps[index]];
    }
    assert ps[..|ps|] == ps;
  }

  lemma JoinAppend(head: Bytes, ps: seq<Pair>, p: Pair)
    ensures head + JoinAll(PrintPairs(ps + [p]), AMPERSAND)
         == if ps == [] then head + PrintPair(p)
            else head + JoinAll(PrintPairs(ps), AMPERSAND) + [AMPERSAND] + PrintPair(p)
  {
    JoinSnoc(PrintPairs(ps), PrintPair(p));
    assert PrintPairs(ps + [p]) == PrintPairs(ps) + [PrintPair(p)];
  }

  lemma {:induction false} JoinSnoc(parts: seq<Bytes>, part: Bytes)
    ensures JoinAll(parts + [part], AMPERSAND)
         == if parts == [] then part else JoinAll(parts, AMPERSAND) + [AMPERSAND] + part
  {
    if parts != [] {
      JoinSnoc(parts[1..], part);
      assert (parts + [part])[1..] == parts[1..] + [part];
    }
  }

  method CanonicalRequestTarget(value: Bytes) returns (r: Result<Bytes, CanonicalError>)
    ensures r == CanonicalTarget(value)
  {
    if !Legal(value) {
      return Err(InvalidRequestTarget);
    }
    var path := NormalizePercentEncoding(PathPart(value), Path);
    if path.Err? {
      return Err(InvalidRequestTarget);
    }
    var resolved := RemoveDotSegments(path.value);
    var ps := QueryPairs(QueryPart(value));
    if ps.None? {
      return Err(InvalidRequestTarget);
    }
    if ps.value == [] {
      return Ok(resolved);
    }
    var output := PrintQuery(resolved, Sort(ps.value));
    return Ok(output);
  }
}
