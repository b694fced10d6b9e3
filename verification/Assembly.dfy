/** Content rebuilt from pages: the part both export collectors have in common. */
module Assembly {
  import opened Basics
  import opened Utf8Pages

  const MAX_EXPORT_BYTES := 4 * 1024 * 1024
  const PAGE_BUDGET := 4096
  const MAX_ENCODED_BYTES := 16 * 1024

  /** The SHA-256 digest in lower-case hexadecimal; nothing else is known of it. */
  type Digest = seq<Byte> -> string

  predicate IsDigest(s: string) {
    |s| == 64 && forall c <- s :: '0' <= c <= '9' || 'a' <= c <= 'f'
  }

  /** The run a partial text belongs to; a memory archive has none. */
  datatype Origin = Origin(sessionId: string, turn: nat, status: string)

  /** What the first page pins and every later page must repeat. */
  datatype Identity = Identity(total: nat, sha256: string, origin: Option<Origin>)

  /** One accepted page. */
  datatype Piece = Piece(identity: Identity, text: seq<Byte>, last: bool)

  datatype Assembly = Assembly(bytes: seq<Byte>, identity: Option<Identity>, complete: bool, pages: nat)

  const Empty := Assembly([], None, false, 0)

  /** The page continues the content at its cursor, stays inside the total and ends it exactly when last. */
  predicate Fits(a: Assembly, p: Piece) {
    && !a.complete
    && (a.identity.Some? ==> a.identity.value == p.identity)
    && |p.text| <= PAGE_BYTES && p.identity.total <= MAX_EXPORT_BYTES
    && |a.bytes| + |p.text| <= p.identity.total
    && (p.last <==> |a.bytes| + |p.text| == p.identity.total)
    && (!p.last ==> p.text != [])
  }

  function Grow(a: Assembly, p: Piece): Assembly {
    Assembly(a.bytes + p.text, Some(p.identity), p.last, a.pages + 1)
  }

  predicate FitAll(a: Assembly, ps: seq<Piece>)
    decreases |ps|
  {
    ps == [] || (Fits(a, ps[0]) && FitAll(Grow(a, ps[0]), ps[1..]))
  }

  function GrowAll(a: Assembly, ps: seq<Piece>): Assembly
    decreases |ps|
  {
    if ps == [] then a else GrowAll(Grow(a, ps[0]), ps[1..])
  }

  function Texts(ps: seq<Piece>): seq<Byte> {
    if ps == [] then [] else ps[0].text + Texts(ps[1..])
  }

  /** What holds of every assembly that grew from nothing by fitting pages. */
  predicate Sound(a: Assembly) {
    match a.identity
    case None => a == Empty
    case Some(i) =>
      |a.bytes| <= i.total <= MAX_EXPORT_BYTES
      && (a.complete <==> |a.bytes| == i.total)
      && (if a.complete then a.pages <= |a.bytes| + 1 else a.pages <= |a.bytes|)
  }

  /** Bytes still missing: every page but the last makes this strictly smaller. */
  function Remaining(a: Assembly): nat
    requires Sound(a)
  {
    if a.identity.None? then MAX_EXPORT_BYTES + 1 else a.identity.value.total - |a.bytes|
  }

  lemma GrowKeepsSound(a: Assembly, p: Piece)
    requires Sound(a) && Fits(a, p)
    ensures Sound(Grow(a, p))
    ensures !p.last ==> Remaining(Grow(a, p)) < Remaining(a)
  {
  }

  /** Growth keeps order, identity and soundness. */
  lemma {:induction false} GrowAllIsConcatenation(a: Assembly, ps: seq<Piece>)
    requires Sound(a) && FitAll(a, ps)
    ensures var g := GrowAll(a, ps);
      && Sound(g)
      && g.bytes == a.bytes + Texts(ps)
      && g.pages == a.pages + |ps|
      && (ps == [] ==> g == a)
      && forall p <- ps :: g.identity == Some(p.identity)
    decreases |ps|
  {
    if ps != [] {
      var next := Grow(a, ps[0]);
      GrowKeepsSound(a, ps[0]);
      GrowAllIsConcatenation(next, ps[1..]);
      assert a.bytes + Texts(ps) == next.bytes + Texts(ps[1..]);
      if ps[1..] == [] {
        assert ps == [ps[0]];
      } else {
        assert next.identity == Some(ps[1..][0].identity) by { assert Fits(next, ps[1..][0]); }
        assert forall p <- ps :: p == ps[0] || p in ps[1..];
        assert ps[1..][0] in ps[1..];
      }
    }
  }

  // ---------- Any responses at all ----------

  /** A page examination that lets only fitting pages through. */
  ghost predicate Careful<E(!new)>(examine: (Assembly, E) -> Option<Piece>) {
    forall a, e :: examine(a, e).Some? ==> Fits(a, examine(a, e).value)
  }

  function Taken<E>(examine: (Assembly, E) -> Option<Piece>, a: Assembly, e: E): Assembly {
    match examine(a, e)
    case None => a
    case Some(piece) => Grow(a, piece)
  }

  /** The assembly after a whole sequence of responses, refused ones included. */
  function Collected<E>(examine: (Assembly, E) -> Option<Piece>, a: Assembly, es: seq<E>): Assembly
    decreases |es|
  {
    if es == [] then a else Collected(examine, Taken(examine, a, es[0]), es[1..])
  }

  function Accepted<E>(examine: (Assembly, E) -> Option<Piece>, a: Assembly, es: seq<E>): seq<Piece>
    decreases |es|
  {
    if es == [] then []
    else (match examine(a, es[0]) case None => [] case Some(piece) => [piece])
         + Accepted(examine, Taken(examine, a, es[0]), es[1..])
  }

  lemma {:induction false} AcceptedFit<E(!new)>(examine: (Assembly, E) -> Option<Piece>, a: Assembly, es: seq<E>)
    requires Careful(examine)
    ensures FitAll(a, Accepted(examine, a, es))
    ensures Collected(examine, a, es) == GrowAll(a, Accepted(examine, a, es))
    decreases |es|
  {
    if es != [] {
      var rest := Accepted(examine, Taken(examine, a, es[0]), es[1..]);
      AcceptedFit(examine, Taken(examine, a, es[0]), es[1..]);
      match examine(a, es[0]) {
        case None => assert [] + rest == rest;
        case Some(piece) => assert ([piece] + rest)[1..] == rest;
      }
    }
  }

  lemma {:induction false} CollectedExtends<E>(examine: (Assembly, E) -> Option<Piece>, a: Assembly, es: seq<E>, e: E)
    ensures Collected(examine, a, es + [e]) == Taken(examine, Collected(examine, a, es), e)
    decreases |es|
  {
    if es == [] {
      assert [e][1..] == [];
      assert es + [e] == [e];
    } else {
      assert (es + [e])[1..] == es[1..] + [e];
      CollectedExtends(examine, Taken(examine, a, es[0]), es[1..], e);
    }
  }

  /** The content, if it is whole and its digest is the pinned one. */
  function Verified(a: Assembly, sha: Digest): Option<seq<Byte>> {
    if !a.complete || a.identity.None? || |a.bytes| != a.identity.value.total || sha(a.bytes) != a.identity.value.sha256
    then None else Some(a.bytes)
  }

  /**
    Integrity: from any responses in any order, verified content is the in-order concatenation of
    the accepted pages, which all carry one identity, and it has that identity's length and digest.
   */
  lemma VerifiedContentIsIntact<E(!new)>(examine: (Assembly, E) -> Option<Piece>, es: seq<E>, sha: Digest)
    requires Careful(examine)
    ensures var a := Collected(examine, Empty, es);
      var ps := Accepted(examine, Empty, es);
      && Sound(a) && a.bytes == Texts(ps) && a.pages == |ps|
      && (forall p <- ps :: a.identity == Some(p.identity))
      && (a.complete ==> a.identity.Some? && |a.bytes| == a.identity.value.total)
      && (Verified(a, sha).Some? ==>
            ps != [] && Verified(a, sha) == Some(Texts(ps))
            && |Texts(ps)| == ps[0].identity.total && sha(Texts(ps)) == ps[0].identity.sha256)
  {
    AcceptedFit(examine, Empty, es);
    GrowAllIsConcatenation(Empty, Accepted(examine, Empty, es));
    if Accepted(examine, Empty, es) != [] {
      assert Accepted(examine, Empty, es)[0] in Accepted(examine, Empty, es);
    }
  }

  predicate Collision(sha: Digest, x: seq<Byte>, y: seq<Byte>) {
    x != y && sha(x) == sha(y)
  }

  /**
    Whoever answers, and whatever else they answer: if any page that was accepted states the digest
    of `content`, then verified content is `content`, or it is the other half of a digest collision.
   */
  lemma VerifiedContentIsOriginalOrCollision<E(!new)>(examine: (Assembly, E) -> Option<Piece>, es: seq<E>, sha: Digest,
                                                      content: seq<Byte>, k: nat)
    requires Careful(examine) && k < |Accepted(examine, Empty, es)|
    requires Accepted(examine, Empty, es)[k].identity.sha256 == sha(content)
    ensures var verified := Verified(Collected(examine, Empty, es), sha);
      verified.Some? ==> verified.value == content || Collision(sha, verified.value, content)
  {
    VerifiedContentIsIntact(examine, es, sha);
    assert Accepted(examine, Empty, es)[k] in Accepted(examine, Empty, es);
  }

  // ---------- A faithful sender ----------

  /** The pages of `content` cut anywhere: non-empty pieces of at most a page, the last one marked. */
  predicate FaithfulCut(content: seq<Byte>, i: Identity, offset: nat, ps: seq<Piece>)
    decreases |ps|
  {
    && ps != [] && ps[0].identity == i && |ps[0].text| <= PAGE_BYTES
    && var end := offset + |ps[0].text|;
       && end <= |content| && ps[0].text == content[offset..end]
       && (ps[0].last <==> end == |content|)
       && if ps[0].last then |ps| == 1 else ps[0].text != [] && FaithfulCut(content, i, end, ps[1..])
  }

  /** Part of `content` has arrived, and nothing else. */
  predicate Holding(a: Assembly, content: seq<Byte>, i: Identity) {
    a.bytes <= content && (a.identity.Some? ==> a.identity.value == i) && (a.identity.None? ==> a.bytes == [])
    && !a.complete
  }

  /** Every faithful cut is accepted page by page and assembles to exactly the content. */
  lemma {:induction false} FaithfulCutAssembles(a: Assembly, content: seq<Byte>, i: Identity, ps: seq<Piece>)
    requires Holding(a, content, i) && i.total == |content| <= MAX_EXPORT_BYTES
    requires FaithfulCut(content, i, |a.bytes|, ps)
    ensures FitAll(a, ps)
    ensures var g := GrowAll(a, ps); g.bytes == content && g.complete && g.identity == Some(i)
    decreases |ps|
  {
    var next := Grow(a, ps[0]);
    if ps[0].last {
      assert ps == [ps[0]] && next.bytes == content;
      assert GrowAll(a, ps) == GrowAll(next, []);
    } else {
      assert next.bytes == content[..|next.bytes|];
      FaithfulCutAssembles(next, content, i, ps[1..]);
    }
  }

  /** The daemon's pages as pieces. */
  function ServedPieces(text: seq<Byte>, i: Identity, offset: nat): seq<Piece>
    requires ValidUtf8(text) && offset <= |text|
    decreases |text| - offset
  {
    PageIsNearlyFull(text, offset);
    var end := PageEnd(text, offset);
    if end == |text| then [Piece(i, text[offset..], true)]
    else [Piece(i, text[offset..end], false)] + ServedPieces(text, i, end)
  }

  /** The daemon cuts faithfully, and so little per page is lost to boundaries that the budget is ample. */
  lemma {:induction false} DaemonCutsFaithfully(text: seq<Byte>, i: Identity, offset: nat)
    requires ValidUtf8(text) && offset <= |text|
    ensures FaithfulCut(text, i, offset, ServedPieces(text, i, offset))
    ensures (|ServedPieces(text, i, offset)| - 1) * (PAGE_BYTES - 3) <= |text| - offset
    decreases |text| - offset
  {
    PageIsNearlyFull(text, offset);
    var end := PageEnd(text, offset);
    if end != |text| {
      DaemonCutsFaithfully(text, i, end);
      assert ServedPieces(text, i, offset)[1..] == ServedPieces(text, i, end);
    } else {
      assert text[offset..] == text[offset..end];
    }
  }

  // ---------- A collection from the daemon, page by page ----------

  /** On its way through `content`, losing at most three bytes per page, or done with all of it. */
  predicate OnTrack(content: seq<Byte>, i: Identity, a: Assembly) {
    if a.complete then
      a.bytes == content && a.identity == Some(i) && (a.pages - 1) * (PAGE_BYTES - 3) <= |content|
    else
      && Holding(a, content, i) && Boundary(content, |a.bytes|)
      && a.pages * (PAGE_BYTES - 3) <= |a.bytes|
      && (a.bytes == content ==> content == [])
      && (a.bytes != [] ==> a.identity.Some?)
  }

  /** The page the daemon cuts next. */
  function NextPiece(content: seq<Byte>, i: Identity, a: Assembly): Piece
    requires |a.bytes| <= PageEnd(content, |a.bytes|)
  {
    var end := PageEnd(content, |a.bytes|);
    Piece(i, content[|a.bytes|..end], end == |content|)
  }

  /** It continues the content, keeps the collection on track, and the budget is never used up. */
  lemma NextPieceStaysOnTrack(content: seq<Byte>, i: Identity, a: Assembly)
    requires ValidUtf8(content) && |content| <= MAX_EXPORT_BYTES
    requires OnTrack(content, i, a) && !a.complete
    ensures a.pages < PAGE_BUDGET && |a.bytes| <= PageEnd(content, |a.bytes|)
    ensures var p := NextPiece(content, i, a);
      && |p.text| <= PAGE_BYTES && a.bytes + p.text <= content && (p.text != [] || content == [])
      && (p.last <==> |a.bytes| + |p.text| == |content|)
      && OnTrack(content, i, Grow(a, p))
  {
    PageIsNearlyFull(content, |a.bytes|);
    var end := PageEnd(content, |a.bytes|);
    assert a.bytes + content[|a.bytes|..end] == content[..end];
  }

  /** So an honest export stays far below the page budget. */
  lemma BudgetIsAmple(content: seq<Byte>, i: Identity, a: Assembly)
    requires |content| <= MAX_EXPORT_BYTES && OnTrack(content, i, a)
    ensures a.pages <= 2052 < PAGE_BUDGET
  {
  }
}
