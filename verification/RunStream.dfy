/** The trust-engine service: validating a streamed run, and why the order of its chunks does not matter. */
module RunStream {
  import opened Text
  import opened VeriRank
  import opened VeriRankOrder
  import opened VeriRankMonotone

  /** kind is None when the streamed entity_kind is not one of the three known ones. */
  datatype Chunk =
    | Header(evaluationTime: int)
    | Attestation(issuer: Str, subject: Str, issuedAt: int, delta: int)
    | PrincipalRow(id: Str, kind: Option<EntityKind>, weight: real, isBootstrap: bool)
    | RootRow(id: Str, weight: real)
    | Empty

  datatype Request = Request(now: int, claims: seq<Claim>, principals: seq<Principal>, roots: seq<Root>)

  predicate WellFormed(c: Chunk) {
    match c
    case Header(_) => false
    case Empty => false
    case Attestation(issuer, subject, issuedAt, _) => issuer != [] && subject != [] && issuedAt != 0
    case PrincipalRow(id, kind, weight, _) => id != [] && kind.Some? && 0.0 <= weight <= 1.0
    case RootRow(id, weight) => id != [] && 0.0 <= weight <= 1.0
  }

  predicate SameKey(c: Chunk, d: Chunk) {
    || (c.PrincipalRow? && d.PrincipalRow? && c.id == d.id)
    || (c.RootRow? && d.RootRow? && c.id == d.id)
  }

  /** Each principal id and each root id is streamed once. */
  ghost predicate KeysUnique(body: seq<Chunk>) {
    && (forall c, d :: c in body && d in body && SameKey(c, d) ==> c == d)
    && (forall c :: c in body && SameKey(c, c) ==> multiset(body)[c] == 1)
  }

  predicate Describes(p: Chunk, id: Str) {
    p.PrincipalRow? && p.id == id
  }

  /** Whatever a chunk refers to has a fitting principal row. */
  ghost predicate Complete(body: seq<Chunk>, c: Chunk) {
    match c
    case Attestation(issuer, subject, _, _) =>
      && (exists p :: p in body && Describes(p, issuer) && (p.kind == Some(Issuer) || p.kind == Some(Both)))
      && (exists p :: p in body && Describes(p, subject))
    case RootRow(id, _) =>
      exists p :: p in body && Describes(p, id) && p.isBootstrap && p.weight == 1.0
    case _ => true
  }

  ghost predicate BodyOk(body: seq<Chunk>) {
    && (forall c :: c in body ==> WellFormed(c))
    && KeysUnique(body)
  }

  /** The streams the service accepts: one header first, then well-formed, unique and complete chunks in any order. */
  ghost predicate Accepted(chunks: seq<Chunk>) {
    && chunks != [] && chunks[0].Header? && chunks[0].evaluationTime != 0
    && BodyOk(chunks[1..])
    && forall c :: c in chunks[1..] ==> Complete(chunks[1..], c)
  }

  function ClaimsIn(body: seq<Chunk>): seq<Claim> {
    if body == [] then [] else
    var c := body[|body|-1];
    ClaimsIn(body[..|body|-1]) + (if c.Attestation? then [Claim(c.issuer, c.subject, c.delta, Some(c.issuedAt))]
                                  else [])
  }

  function PrincipalsIn(body: seq<Chunk>): seq<Principal> {
    if body == [] then [] else
    var c := body[|body|-1];
    PrincipalsIn(body[..|body|-1]) +
    (if c.PrincipalRow? && c.kind.Some? then [Principal(c.id, c.kind.value, c.weight, c.isBootstrap)] else [])
  }

  function RootsIn(body: seq<Chunk>): seq<Root> {
    if body == [] then [] else
    var c := body[|body|-1];
    RootsIn(body[..|body|-1]) + (if c.RootRow? then [Root(c.id, c.weight)] else [])
  }

  function RequestOf(chunks: seq<Chunk>): Request
    requires chunks != [] && chunks[0].Header?
  {
    Request(chunks[0].evaluationTime, ClaimsIn(chunks[1..]), PrincipalsIn(chunks[1..]), RootsIn(chunks[1..]))
  }

  // ----- The collected lists hold exactly what was streamed -----

  lemma {:induction false} Collected(body: seq<Chunk>)
    requires forall c :: c in body ==> WellFormed(c)
    ensures forall q :: q in PrincipalsIn(body) <==>
            PrincipalRow(q.id, Some(q.kind), q.trustWeight, q.isBootstrap) in body
    ensures forall q :: q in RootsIn(body) <==> RootRow(q.id, q.weight) in body
    ensures forall q :: q in ClaimsIn(body) <==>
            q.issuedAt.Some? && Attestation(q.issuer, q.subject, q.issuedAt.value, q.delta) in body
  {
    if body != [] {
      var last := |body| - 1;
      Collected(body[..last]);
      assert body == body[..last] + [body[last]];
      assert forall c :: c in body <==> c in body[..last] || c == body[last];
    }
  }

  // ----- Receiving and validating -----

  /** What the receive loop has gathered after the header. */
  datatype Progress = Progress(claims: seq<Claim>, principals: seq<Principal>, roots: seq<Root>,
                               seenPrincipals: set<Str>, seenRoots: set<Str>)

  predicate Seen(p: Progress, c: Chunk) {
    (c.PrincipalRow? && c.id in p.seenPrincipals) || (c.RootRow? && c.id in p.seenRoots)
  }

  function Gather(p: Progress, c: Chunk): Progress
    requires WellFormed(c)
  {
    match c
    case Attestation(issuer, subject, issuedAt, delta) =>
      p.(claims := p.claims + [Claim(issuer, subject, delta, Some(issuedAt))])
    case PrincipalRow(id, kind, weight, isBootstrap) =>
      p.(principals := p.principals + [Principal(id, kind.value, weight, isBootstrap)],
         seenPrincipals := p.seenPrincipals + {id})
    case RootRow(id, weight) => p.(roots := p.roots + [Root(id, weight)], seenRoots := p.seenRoots + {id})
  }

  ghost predicate Tracks(body: seq<Chunk>, p: Progress) {
    && BodyOk(body)
    && p.claims == ClaimsIn(body) && p.principals == PrincipalsIn(body) && p.roots == RootsIn(body)
    && p.seenPrincipals == (set c | c in body && c.PrincipalRow? :: c.id)
    && p.seenRoots == (set c | c in body && c.RootRow? :: c.id)
  }

  /** One turn of the receive loop. */
  method ReceiveOne(p: Progress, chunk: Chunk) returns (r: Result<Progress, string>)
    ensures r.Ok? <==> WellFormed(chunk) && !Seen(p, chunk)
    ensures r.Ok? ==> r.value == Gather(p, chunk)
  {
    match chunk
    case Header(_) => return Err("duplicate RunHeader");
    case Empty => return Err("nil chunk payload");
    case Attestation(issuer, subject, issuedAt, delta) =>
      if issuer == [] || subject == [] { return Err("attestation issuer_id and subject_id are required"); }
      if issuedAt == 0 { return Err("attestation issued_at_unix is required"); }
      return Ok(p.(claims := p.claims + [Claim(issuer, subject, delta, Some(issuedAt))]));
    case PrincipalRow(id, kind, weight, isBootstrap) =>
      if id == [] { return Err("principal id is required"); }
      if id in p.seenPrincipals { return Err("duplicate principal"); }
      if kind.None? { return Err("invalid entity_kind"); }
      if weight < 0.0 || weight > 1.0 { return Err("trust_weight out of range"); }
      return Ok(p.(seenPrincipals := p.seenPrincipals + {id},
                   principals := p.principals + [Principal(id, kind.value, weight, isBootstrap)]));
    case RootRow(id, weight) =>
      if id == [] { return Err("root id is required"); }
      if id in p.seenRoots { return Err("duplicate root"); }
      if weight < 0.0 || weight > 1.0 { return Err("root weight out of range"); }
      return Ok(p.(seenRoots := p.seenRoots + {id}, roots := p.roots + [Root(id, weight)]));
  }

  lemma SeenIffSameKey(body: seq<Chunk>, p: Progress, c: Chunk)
    requires Tracks(body, p)
    ensures Seen(p, c) <==> exists d :: d in body && SameKey(d, c)
  {
    if Seen(p, c) {
      if c.PrincipalRow? {
        var d :| d in body && d.PrincipalRow? && d.id == c.id;
        assert SameKey(d, c);
      } else {
        var d :| d in body && d.RootRow? && d.id == c.id;
        assert SameKey(d, c);
      }
    }
  }

  /** A fresh well-formed chunk keeps the body acceptable. */
  lemma BodyGrows(body: seq<Chunk>, c: Chunk)
    requires BodyOk(body) && WellFormed(c) && forall d :: d in body ==> !SameKey(d, c)
    ensures BodyOk(body + [c])
  {
    var longer := body + [c];
    forall d | d in longer && SameKey(d, d) ensures multiset(longer)[d] == 1 {
      if d != c { assert d in body && multiset(body)[d] == 1; }
      assert c !in body || !SameKey(c, c);
    }
    forall d, e | d in longer && e in longer && SameKey(d, e) ensures d == e {
      assert SameKey(e, d);
    }
  }

  lemma ListsGrow(body: seq<Chunk>, c: Chunk)
    requires WellFormed(c)
    ensures var p := Gather(Progress(ClaimsIn(body), PrincipalsIn(body), RootsIn(body), {}, {}), c);
            && ClaimsIn(body + [c]) == p.claims && PrincipalsIn(body + [c]) == p.principals
            && RootsIn(body + [c]) == p.roots
  {
    assert (body + [c])[..|body|] == body;
    assert ClaimsIn(body) + [] == ClaimsIn(body);
    assert PrincipalsIn(body) + [] == PrincipalsIn(body);
    assert RootsIn(body) + [] == RootsIn(body);
  }

  lemma TracksGather(body: seq<Chunk>, p: Progress, c: Chunk)
    requires Tracks(body, p) && WellFormed(c) && !Seen(p, c)
    ensures Tracks(body + [c], Gather(p, c))
  {
    hide BodyOk;
    hide ClaimsIn;
    hide PrincipalsIn;
    hide RootsIn;
    hide SameKey;
    SeenIffSameKey(body, p, c);
    BodyGrows(body, c);
    ListsGrow(body, c);
    KeysGrow(body, c);
  }

  lemma KeysGrow(body: seq<Chunk>, c: Chunk)
    ensures (set d | d in body + [c] && d.PrincipalRow? :: d.id) ==
            (set d | d in body && d.PrincipalRow? :: d.id) + (if c.PrincipalRow? then {c.id} else {})
    ensures (set d | d in body + [c] && d.RootRow? :: d.id) ==
            (set d | d in body && d.RootRow? :: d.id) + (if c.RootRow? then {c.id} else {})
  {
    assert forall d :: d in body + [c] <==> d in body || d == c;
  }

  /** A malformed chunk, or one whose key came before, makes every extension of the body unacceptable. */
  lemma BodySpoiled(body: seq<Chunk>, p: Progress, c: Chunk, rest: seq<Chunk>)
    requires Tracks(body, p) && (!WellFormed(c) || Seen(p, c))
    ensures !BodyOk(body + [c] + rest)
  {
    var all := body + [c] + rest;
    assert c in all by { assert all[|body|] == c; }
    if Seen(p, c) {
      SeenIffSameKey(body, p, c);
      var d :| d in body && SameKey(d, c);
      assert d in all;
      if d == c {
        assert multiset(all)[c] == multiset(body)[c] + 1 + multiset(rest)[c];
        assert multiset(body)[c] >= 1;
      }
    }
  }

  /** The receive loop: Ok exactly on a header followed by well-formed chunks with unique keys. */
  method Receive(chunks: seq<Chunk>) returns (r: Result<Request, string>)
    ensures r.Ok? <==> chunks != [] && chunks[0].Header? && chunks[0].evaluationTime != 0 && BodyOk(chunks[1..])
    ensures r.Ok? ==> r.value == RequestOf(chunks)
  {
    if chunks == [] { return Err("missing RunHeader chunk"); }
    if !chunks[0].Header? { return Err("header must be first chunk"); }
    if chunks[0].evaluationTime == 0 { return Err("evaluation_time_unix is required"); }
    ghost var body := chunks[1..];
    var p := Progress([], [], [], {}, {});
    for i := 1 to |chunks|
      invariant Tracks(body[..i-1], p)
    {
      var next := ReceiveOne(p, chunks[i]);
      assert body[..i-1] + [chunks[i]] == body[..i];
      if next.Err? {
        BodySpoiled(body[..i-1], p, chunks[i], body[i..]);
        assert body[..i] + body[i..] == body;
        return Err(next.error);
      }
      TracksGather(body[..i-1], p, chunks[i]);
      p := next.value;
    }
    assert body[..|chunks|-1] == body;
    return Ok(Request(chunks[0].evaluationTime, p.claims, p.principals, p.roots));
  }

  method FindPrincipal(principals: seq<Principal>, id: Str) returns (found: Option<Principal>)
    ensures found.None? <==> forall p :: p in principals ==> p.id != id
    ensures found.Some? ==> found.value in principals && found.value.id == id
  {
    found := None;
    for i := 0 to |principals|
      invariant found.None?
      invariant forall k :: 0 <= k < i ==> principals[k].id != id
    {
      if principals[i].id == id { return Some(principals[i]); }
    }
  }

  ghost predicate IssuerKnown(principals: seq<Principal>, id: Str) {
    exists p :: p in principals && p.id == id && (p.kind == Issuer || p.kind == Both)
  }

  ghost predicate Known(principals: seq<Principal>, id: Str) {
    exists p :: p in principals && p.id == id
  }

  ghost predicate BootstrapKnown(principals: seq<Principal>, id: Str) {
    exists p :: p in principals && p.id == id && p.isBootstrap && p.trustWeight == 1.0
  }

  ghost predicate RequestComplete(q: Request) {
    && (forall c :: c in q.claims ==> IssuerKnown(q.principals, c.issuer) && Known(q.principals, c.subject))
    && (forall r :: r in q.roots ==> BootstrapKnown(q.principals, r.id))
  }

  /** The completeness checks after the stream ends. */
  method Validate(q: Request) returns (ok: bool)
    requires forall a, b :: a in q.principals && b in q.principals && a.id == b.id ==> a == b
    ensures ok <==> RequestComplete(q)
  {
    for i := 0 to |q.claims|
      invariant forall k :: 0 <= k < i ==>
                IssuerKnown(q.principals, q.claims[k].issuer) && Known(q.principals, q.claims[k].subject)
    {
      assert q.claims[i] in q.claims;
      var issuer := FindPrincipal(q.principals, q.claims[i].issuer);
      if issuer.None? { return false; }
      if issuer.value.kind != Issuer && issuer.value.kind != Both { return false; }
      var subject := FindPrincipal(q.principals, q.claims[i].subject);
      if subject.None? { return false; }
    }
    for i := 0 to |q.roots|
      invariant forall k :: 0 <= k < i ==> BootstrapKnown(q.principals, q.roots[k].id)
    {
      assert q.roots[i] in q.roots;
      var found := FindPrincipal(q.principals, q.roots[i].id);
      if found.None? { return false; }
      if !found.value.isBootstrap || found.value.trustWeight != 1.0 { return false; }
    }
    return true;
  }

  lemma PrincipalsUnique(body: seq<Chunk>)
    requires BodyOk(body)
    ensures forall a, b :: a in PrincipalsIn(body) && b in PrincipalsIn(body) && a.id == b.id ==> a == b
    ensures forall a, b :: a in RootsIn(body) && b in RootsIn(body) && a.id == b.id ==> a == b
  {
    Collected(body);
    forall a, b | a in PrincipalsIn(body) && b in PrincipalsIn(body) && a.id == b.id ensures a == b {
      assert SameKey(PrincipalRow(a.id, Some(a.kind), a.trustWeight, a.isBootstrap),
                     PrincipalRow(b.id, Some(b.kind), b.trustWeight, b.isBootstrap));
    }
    forall a, b | a in RootsIn(body) && b in RootsIn(body) && a.id == b.id ensures a == b {
      assert SameKey(RootRow(a.id, a.weight), RootRow(b.id, b.weight));
    }
  }

  lemma CompleteIff(body: seq<Chunk>)
    requires BodyOk(body)
    ensures (forall c :: c in body ==> Complete(body, c)) <==>
            RequestComplete(Request(0, ClaimsIn(body), PrincipalsIn(body), RootsIn(body)))
  {
    Collected(body);
    var q := Request(0, ClaimsIn(body), PrincipalsIn(body), RootsIn(body));
    if RequestComplete(q) {
      forall c | c in body ensures Complete(body, c) { CompleteFromRequest(body, q, c); }
    }
    if forall c :: c in body ==> Complete(body, c) {
      forall k | k in q.claims ensures IssuerKnown(q.principals, k.issuer) && Known(q.principals, k.subject) {
        var c := Attestation(k.issuer, k.subject, k.issuedAt.value, k.delta);
        assert Complete(body, c);
        var p :| p in body && Describes(p, k.issuer) && (p.kind == Some(Issuer) || p.kind == Some(Both));
        assert Principal(p.id, p.kind.value, p.weight, p.isBootstrap) in q.principals;
        var s :| s in body && Describes(s, k.subject);
        assert WellFormed(s);
        assert Principal(s.id, s.kind.value, s.weight, s.isBootstrap) in q.principals;
      }
      forall r | r in q.roots ensures BootstrapKnown(q.principals, r.id) {
        assert Complete(body, RootRow(r.id, r.weight));
        var p :| p in body && Describes(p, r.id) && p.isBootstrap && p.weight == 1.0;
        assert WellFormed(p);
        assert Principal(p.id, p.kind.value, p.weight, p.isBootstrap) in q.principals;
      }
    }
  }

  lemma CompleteFromRequest(body: seq<Chunk>, q: Request, c: Chunk)
    requires BodyOk(body) && c in body && RequestComplete(q)
    requires q == Request(0, ClaimsIn(body), PrincipalsIn(body), RootsIn(body))
    ensures Complete(body, c)
  {
    Collected(body);
    match c
    case Attestation(issuer, subject, issuedAt, delta) =>
      assert Claim(issuer, subject, delta, Some(issuedAt)) in q.claims;
      var p :| p in q.principals && p.id == issuer && (p.kind == Issuer || p.kind == Both);
      assert Describes(PrincipalRow(p.id, Some(p.kind), p.trustWeight, p.isBootstrap), issuer);
      var s :| s in q.principals && s.id == subject;
      assert Describes(PrincipalRow(s.id, Some(s.kind), s.trustWeight, s.isBootstrap), subject);
    case RootRow(id, weight) =>
      assert Root(id, weight) in q.roots;
      var p :| p in q.principals && p.id == id && p.isBootstrap && p.trustWeight == 1.0;
      assert Describes(PrincipalRow(p.id, Some(p.kind), p.trustWeight, p.isBootstrap), id);
    case _ =>
  }

  /** The state the engine reaches on an accepted stream. */
  function ResultOf(q: Request, decay: int -> real): State {
    Hops(SettingOf(q.principals, decay, q.now), EdgesOf(q.claims, q.now), Start(q.roots), MAX_HOPS)
  }

  /** The whole call: it succeeds exactly on accepted streams and then returns the engine's table. */
  method RunVeriRankStream(chunks: seq<Chunk>, decay: int -> real) returns (r: Result<seq<ScoreRow>, string>)
    ensures r.Ok? <==> Accepted(chunks)
    ensures r.Ok? ==> IsTable(r.value, ResultOf(RequestOf(chunks), decay), KindsOf(PrincipalsIn(chunks[1..])))
  {
    var received := Receive(chunks);
    if received.Err? { return Err(received.error); }
    var q := received.value;
    CompleteIff(chunks[1..]);
    PrincipalsUnique(chunks[1..]);
    var complete := Validate(q);
    if !complete { return Err("stream incomplete"); }
    var rows := RunVeriRank(q.claims, q.principals, q.roots, decay, q.now);
    return Ok(rows);
  }

  // ----- What an accepted stream means to the engine -----

  /** Chunk j is a principal row for id. */
  predicate RowAt(chunks: seq<Chunk>, j: int, id: Str) {
    1 <= j < |chunks| && chunks[j].PrincipalRow? && chunks[j].id == id
  }

  /** What the service asks of chunk i, by position in the stream. */
  ghost predicate AdmissibleAt(chunks: seq<Chunk>, i: nat)
    requires 1 <= i < |chunks|
  {
    match chunks[i]
    case Header(_) => false
    case Empty => false
    case Attestation(issuer, subject, issuedAt, _) =>
      && issuer != [] && subject != [] && issuedAt != 0
      && (exists j :: RowAt(chunks, j, issuer) && (chunks[j].kind == Some(Issuer) || chunks[j].kind == Some(Both)))
      && (exists j :: RowAt(chunks, j, subject))
    case PrincipalRow(id, kind, weight, _) =>
      && id != [] && kind.Some? && 0.0 <= weight <= 1.0
      && (forall j :: RowAt(chunks, j, id) ==> j == i)
    case RootRow(id, weight) =>
      && id != [] && 0.0 <= weight <= 1.0
      && (forall j :: 1 <= j < |chunks| && chunks[j].RootRow? && chunks[j].id == id ==> j == i)
      && (exists j :: RowAt(chunks, j, id) && chunks[j].isBootstrap && chunks[j].weight == 1.0)
  }

  lemma OnceIff(body: seq<Chunk>, i: nat)
    requires i < |body|
    ensures multiset(body)[body[i]] == 1 <==> forall j :: 0 <= j < |body| && body[j] == body[i] ==> j == i
  {
    var before, after := body[..i], body[i+1..];
    assert body == before + [body[i]] + after;
    assert multiset(body)[body[i]] == multiset(before)[body[i]] + 1 + multiset(after)[body[i]];
    if j :| 0 <= j < |body| && body[j] == body[i] && j != i {
      if j < i { assert before[j] in multiset(before); } else { assert after[j-i-1] in multiset(after); }
    }
    if body[i] in multiset(before) {
      var j :| 0 <= j < |before| && before[j] == body[i];
      assert body[j] == body[i];
    }
    if body[i] in multiset(after) {
      var j :| 0 <= j < |after| && after[j] == body[i];
      assert body[i + 1 + j] == body[i];
    }
  }

  /** The stream by position: which streams the service accepts, chunk by chunk. */
  lemma AcceptedIff(chunks: seq<Chunk>)
    ensures Accepted(chunks) <==>
            && chunks != [] && chunks[0].Header? && chunks[0].evaluationTime != 0
            && forall i :: 1 <= i < |chunks| ==> AdmissibleAt(chunks, i)
  {
    if chunks != [] && chunks[0].Header? && chunks[0].evaluationTime != 0 {
      if Accepted(chunks) {
        forall i | 1 <= i < |chunks| ensures AdmissibleAt(chunks, i) { AcceptedAt(chunks, i); }
      }
      if forall i :: 1 <= i < |chunks| ==> AdmissibleAt(chunks, i) {
        AdmissibleAccepted(chunks);
      }
    }
  }

  lemma AcceptedAt(chunks: seq<Chunk>, i: nat)
    requires Accepted(chunks) && 1 <= i < |chunks|
    ensures AdmissibleAt(chunks, i)
  {
    var body, c := chunks[1..], chunks[i];
    assert body[i-1] == c && c in body;
    assert WellFormed(c) && Complete(body, c);
    forall p | p in body && p.PrincipalRow? ensures exists j :: RowAt(chunks, j, p.id) && chunks[j] == p {
      var j :| 0 <= j < |body| && body[j] == p;
      assert RowAt(chunks, j + 1, p.id);
    }
    if SameKey(c, c) {
      OnceIff(body, i - 1);
      forall j | 1 <= j < |chunks| && SameKey(chunks[j], c) ensures j == i {
        assert chunks[j] == body[j-1] && body[j-1] in body;
      }
    }
  }

  lemma AdmissibleAccepted(chunks: seq<Chunk>)
    requires chunks != [] && chunks[0].Header? && chunks[0].evaluationTime != 0
    requires forall i :: 1 <= i < |chunks| ==> AdmissibleAt(chunks, i)
    ensures Accepted(chunks)
  {
    var body := chunks[1..];
    forall c | c in body ensures WellFormed(c) && Complete(body, c) {
      var i :| 0 <= i < |body| && body[i] == c;
      AdmissibleChunk(chunks, i + 1);
    }
    forall c, d | c in body && d in body && SameKey(c, d) ensures c == d && multiset(body)[c] == 1 {
      var i :| 0 <= i < |body| && body[i] == c;
      AdmissibleKey(chunks, i + 1, d);
    }
  }

  lemma AdmissibleChunk(chunks: seq<Chunk>, i: nat)
    requires 1 <= i < |chunks| && AdmissibleAt(chunks, i)
    ensures WellFormed(chunks[i]) && Complete(chunks[1..], chunks[i])
  {
    var body := chunks[1..];
    assert forall j :: 1 <= j < |chunks| ==> chunks[j] == body[j-1] && body[j-1] in body;
  }

  lemma AdmissibleKey(chunks: seq<Chunk>, i: nat, d: Chunk)
    requires 1 <= i < |chunks| && AdmissibleAt(chunks, i) && d in chunks[1..] && SameKey(chunks[i], d)
    ensures chunks[i] == d && multiset(chunks[1..])[d] == 1
  {
    var body, c := chunks[1..], chunks[i];
    forall j | 0 <= j < |body| && SameKey(c, body[j]) ensures j == i - 1 {
      assert chunks[j+1] == body[j];
      assert c.PrincipalRow? ==> RowAt(chunks, j + 1, c.id);
    }
    var j :| 0 <= j < |body| && body[j] == d;
    assert body[i-1] == c == d;
    OnceIff(body, i - 1);
  }

  lemma {:induction false} PrincipalMaps(ps: seq<Principal>)
    requires forall a, b :: a in ps && b in ps && a.id == b.id ==> a == b
    ensures forall p :: p in ps ==> p.id in WeightsOf(ps) && WeightsOf(ps)[p.id] == p.trustWeight
    ensures forall p :: p in ps ==> p.id in KindsOf(ps) && KindsOf(ps)[p.id] == p.kind
    ensures forall id :: id in WeightsOf(ps) || id in KindsOf(ps) ==> exists p :: p in ps && p.id == id
  {
    if ps != [] {
      var last := |ps| - 1;
      assert forall p :: p in ps <==> p in ps[..last] || p == ps[last];
      PrincipalMaps(ps[..last]);
    }
  }

  lemma {:induction false} RootMap(rs: seq<Root>)
    requires forall a, b :: a in rs && b in rs && a.id == b.id ==> a == b
    ensures forall r :: r in rs ==> r.id in InitialScores(rs) && InitialScores(rs)[r.id] == 100.0 * r.weight
    ensures forall id :: id in InitialScores(rs) ==> exists r :: r in rs && r.id == id
  {
    if rs != [] {
      var last := |rs| - 1;
      assert forall r :: r in rs <==> r in rs[..last] || r == rs[last];
      RootMap(rs[..last]);
    }
  }

  lemma StreamWeights(body: seq<Chunk>)
    requires BodyOk(body)
    ensures forall c :: c in body && c.PrincipalRow? ==>
            && c.id in WeightsOf(PrincipalsIn(body)) && WeightsOf(PrincipalsIn(body))[c.id] == c.weight
            && c.id in KindsOf(PrincipalsIn(body)) && Some(KindsOf(PrincipalsIn(body))[c.id]) == c.kind
    ensures forall id :: id in WeightsOf(PrincipalsIn(body)) || id in KindsOf(PrincipalsIn(body)) ==>
            exists c :: c in body && Describes(c, id)
  {
    Collected(body);
    PrincipalsUnique(body);
    PrincipalMaps(PrincipalsIn(body));
    hide PrincipalsIn;
    hide WeightsOf;
    hide KindsOf;
    forall c | c in body && c.PrincipalRow?
      ensures c.kind.Some? && Principal(c.id, c.kind.value, c.weight, c.isBootstrap) in PrincipalsIn(body)
    {
      assert WellFormed(c);
    }
    forall id | id in WeightsOf(PrincipalsIn(body)) || id in KindsOf(PrincipalsIn(body))
      ensures exists c :: c in body && Describes(c, id)
    {
      var p :| p in PrincipalsIn(body) && p.id == id;
      assert Describes(PrincipalRow(p.id, Some(p.kind), p.trustWeight, p.isBootstrap), id);
    }
  }

  lemma StreamRoots(body: seq<Chunk>)
    requires BodyOk(body)
    ensures forall c :: c in body && c.RootRow? ==>
            c.id in InitialScores(RootsIn(body)) && InitialScores(RootsIn(body))[c.id] == 100.0 * c.weight
    ensures forall id :: id in InitialScores(RootsIn(body)) ==> exists c :: c in body && c.RootRow? && c.id == id
  {
    Collected(body);
    PrincipalsUnique(body);
    RootMap(RootsIn(body));
    hide RootsIn;
    hide InitialScores;
    forall c | c in body && c.RootRow? ensures Root(c.id, c.weight) in RootsIn(body) {}
    forall id | id in InitialScores(RootsIn(body)) ensures exists c :: c in body && c.RootRow? && c.id == id {
      var r :| r in RootsIn(body) && r.id == id;
      assert RootRow(r.id, r.weight).RootRow?;
    }
  }

  lemma StreamEdges(body: seq<Chunk>, now: int)
    requires BodyOk(body)
    ensures forall e :: e in EdgesOf(ClaimsIn(body), now) <==>
            exists c :: c in body && c.Attestation? && e.issuer == c.issuer && e.subject == c.subject
                        && e.score == c.delta && c.issuedAt <= now + 120
                        && e.timestamp == if c.issuedAt > now then now else c.issuedAt
  {
    Collected(body);
    EdgesOfClaims(ClaimsIn(body), now);
    hide ClaimsIn;
    hide EdgesOf;
    forall e ensures e in EdgesOf(ClaimsIn(body), now) <==>
                     exists c :: c in body && c.Attestation? && e.issuer == c.issuer && e.subject == c.subject
                                 && e.score == c.delta && c.issuedAt <= now + 120
                                 && e.timestamp == if c.issuedAt > now then now else c.issuedAt
    {
      if e in EdgesOf(ClaimsIn(body), now) {
        var k :| k in ClaimsIn(body) && VeriRankMonotone.Accepted(k, now) && e == EdgeOf(k, now);
        assert Attestation(k.issuer, k.subject, k.issuedAt.value, k.delta).Attestation?;
      }
      if c :| c in body && c.Attestation? && e.issuer == c.issuer && e.subject == c.subject
              && e.score == c.delta && c.issuedAt <= now + 120
              && e.timestamp == (if c.issuedAt > now then now else c.issuedAt)
      {
        var k := Claim(c.issuer, c.subject, c.delta, Some(c.issuedAt));
        assert k in ClaimsIn(body) && VeriRankMonotone.Accepted(k, now) && e == EdgeOf(k, now);
      }
    }
  }

  /**
    What the engine is given by an accepted stream: an issuer weighs what its principal row says; a root starts at 100
    times its weight; an edge is an attestation dated at most 120 seconds after the evaluation time, with a date after
    the evaluation time moved back to it.
   */
  lemma StreamMeaning(chunks: seq<Chunk>, decay: int -> real)
    requires Accepted(chunks)
    ensures var q, now, body := RequestOf(chunks), chunks[0].evaluationTime, chunks[1..];
            && (forall c :: c in body && c.PrincipalRow? ==>
                && c.id in SettingOf(q.principals, decay, q.now).weights
                && SettingOf(q.principals, decay, q.now).weights[c.id] == c.weight
                && c.id in KindsOf(q.principals) && Some(KindsOf(q.principals)[c.id]) == c.kind)
            && (forall id :: id in SettingOf(q.principals, decay, q.now).weights || id in KindsOf(q.principals) ==>
                exists c :: c in body && Describes(c, id))
            && (forall c :: c in body && c.RootRow? ==>
                c.id in Start(q.roots).scores && Start(q.roots).scores[c.id] == 100.0 * c.weight)
            && (forall id :: id in Start(q.roots).scores ==> exists c :: c in body && c.RootRow? && c.id == id)
            && (forall e :: e in EdgesOf(q.claims, q.now) <==>
                exists c :: c in body && c.Attestation? && e.issuer == c.issuer && e.subject == c.subject
                            && e.score == c.delta && c.issuedAt <= now + 120
                            && e.timestamp == if c.issuedAt > now then now else c.issuedAt)
  {
    hide Complete;
    hide BodyOk;
    hide ClaimsIn;
    hide PrincipalsIn;
    hide RootsIn;
    hide WeightsOf;
    hide KindsOf;
    hide InitialScores;
    hide EdgesOf;
    StreamWeights(chunks[1..]);
    StreamRoots(chunks[1..]);
    StreamEdges(chunks[1..], chunks[0].evaluationTime);
  }

  // ----- Reordering -----

  lemma SamePrincipals(a: seq<Principal>, b: seq<Principal>)
    requires forall p, q :: p in a && q in a && p.id == q.id ==> p == q
    requires forall p :: p in a <==> p in b
    ensures WeightsOf(a) == WeightsOf(b) && KindsOf(a) == KindsOf(b)
  {
    hide WeightsOf;
    hide KindsOf;
    PrincipalMaps(a);
    PrincipalMaps(b);
    assert WeightsOf(a).Keys == WeightsOf(b).Keys;
    assert KindsOf(a).Keys == KindsOf(b).Keys;
  }

  lemma SameRoots(a: seq<Root>, b: seq<Root>)
    requires forall p, q :: p in a && q in a && p.id == q.id ==> p == q
    requires forall p :: p in a <==> p in b
    ensures InitialScores(a) == InitialScores(b)
  {
    RootsWithin(a, b);
    RootsWithin(b, a);
  }

  lemma RootsWithin(a: seq<Root>, b: seq<Root>)
    requires forall p, q :: p in a && q in a && p.id == q.id ==> p == q
    requires forall p :: p in a <==> p in b
    ensures forall id :: id in InitialScores(a) ==>
            id in InitialScores(b) && InitialScores(a)[id] == InitialScores(b)[id]
  {
    hide InitialScores;
    RootMap(a);
    RootMap(b);
    forall id | id in InitialScores(a) ensures id in InitialScores(b) && InitialScores(a)[id] == InitialScores(b)[id] {
      var r :| r in a && r.id == id;
      assert r in b;
    }
  }

  /** b is a with the chunks after the header in another order. */
  ghost predicate Reordered(a: seq<Chunk>, b: seq<Chunk>) {
    a != [] && b != [] && a[0] == b[0] && multiset(a[1..]) == multiset(b[1..])
  }

  lemma SameMembers(a: seq<Chunk>, b: seq<Chunk>)
    requires multiset(a) == multiset(b)
    ensures forall c :: c in a <==> c in b
  {
    forall c ensures c in a <==> c in b {
      assert c in a <==> c in multiset(a);
      assert c in b <==> c in multiset(b);
    }
  }

  lemma ReorderedAccepted(a: seq<Chunk>, b: seq<Chunk>)
    requires Accepted(a) && Reordered(a, b)
    ensures Accepted(b)
  {
    var x, y := a[1..], b[1..];
    SameMembers(x, y);
    assert KeysUnique(y) by {
      forall c | c in y && SameKey(c, c) ensures multiset(y)[c] == 1 { assert multiset(x)[c] == 1; }
    }
    forall c | c in y ensures Complete(y, c) { assert Complete(x, c); }
  }

  lemma ReorderedResult(a: seq<Chunk>, b: seq<Chunk>, decay: int -> real)
    requires Accepted(a) && Reordered(a, b)
    ensures KindsOf(PrincipalsIn(a[1..])) == KindsOf(PrincipalsIn(b[1..]))
    ensures ResultOf(RequestOf(a), decay) == ResultOf(RequestOf(b), decay)
  {
    var x, y := a[1..], b[1..];
    SameMembers(x, y);
    Collected(x);
    Collected(y);
    PrincipalsUnique(x);
    SamePrincipals(PrincipalsIn(x), PrincipalsIn(y));
    SameRoots(RootsIn(x), RootsIn(y));
    var now := a[0].evaluationTime;
    EdgesOfClaims(ClaimsIn(x), now);
    EdgesOfClaims(ClaimsIn(y), now);
    HopsSameEdges(SettingOf(PrincipalsIn(x), decay, now), EdgesOf(ClaimsIn(x), now), EdgesOf(ClaimsIn(y), now),
                  Start(RootsIn(x)), MAX_HOPS);
  }

  /** Reordering the chunks after the header of an accepted stream changes neither acceptance nor a single row. */
  lemma ReorderedSameTable(a: seq<Chunk>, b: seq<Chunk>, decay: int -> real, rowsA: seq<ScoreRow>, rowsB: seq<ScoreRow>)
    requires Accepted(a) && Reordered(a, b)
    requires IsTable(rowsA, ResultOf(RequestOf(a), decay), KindsOf(PrincipalsIn(a[1..])))
    requires IsTable(rowsB, ResultOf(RequestOf(b), decay), KindsOf(PrincipalsIn(b[1..])))
    ensures Accepted(b) && rowsA == rowsB
  {
    ReorderedAccepted(a, b);
    ReorderedResult(a, b, decay);
    TableUnique(rowsA, rowsB, ResultOf(RequestOf(a), decay), KindsOf(PrincipalsIn(a[1..])));
  }
}
