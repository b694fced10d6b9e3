/** Collecting the retained partial text of a run, page by page, from a peer that is not trusted. */
module PartialExport {
  import opened Basics
  import opened Utf8Pages
  import opened Assembly
  import opened JsonLength

  datatype PageText = PageText(
    available: bool,
    text: Option<seq<Byte>>,
    offset: Option<nat>,
    nextOffset: Option<nat>,
    totalBytes: Option<nat>,
    sha256: Option<string>,
    messageComplete: Option<bool>,
    untrusted: Option<bool>,
    reasoningIncluded: Option<bool>,
    toolArgumentsIncluded: Option<bool>)

  const NoPage := PageText(false, None, None, None, None, None, None, None, None, None)

  datatype Reply = Reply(
    runId: string,
    sessionId: string,
    revision: nat,
    turn: Option<nat>,
    status: string,
    partial: PageText,
    durable: bool,
    acknowledged: bool,
    automaticReplay: bool)

  /** A response: not closed-schema JSON, or a decoded reply of some encoded length. */
  datatype Encoded = Malformed | Decoded(length: nat, reply: Reply)

  datatype Query = Query(runId: string, revision: nat, offset: nat, sha256: Option<string>)

  predicate Control(c: char) {
    c < ' ' || '\U{7f}' <= c <= '\U{9f}'
  }

  // ---------- check_partial_page ----------

  predicate EnvelopeOk(r: Reply, q: Query) {
    && r.runId == q.runId && r.revision == q.revision && r.revision != 0
    && 0 < |r.sessionId| <= 128 && (forall c <- r.sessionId :: !Control(c))
    && r.durable && !r.acknowledged && !r.automaticReplay
    && r.status in {"completed", "completed_with_changes", "cancelled", "failed", "outcome_unknown"}
  }

  predicate PageOk(r: Reply, q: Query, sha: Digest) {
    var page := r.partial;
    && page.text.Some? && page.offset.Some? && page.totalBytes.Some? && page.sha256.Some?
    && var text, offset, total, digest := page.text.value, page.offset.value, page.totalBytes.value, page.sha256.value;
       var end := offset + |text|;
       && r.turn.Some? && offset == q.offset
       && |text| <= PAGE_BYTES && total <= MAX_EXPORT_BYTES && end <= total
       && IsDigest(digest) && (q.sha256.Some? ==> q.sha256.value == digest)
       && page.messageComplete == Some(false) && page.untrusted == Some(true)
       && page.reasoningIncluded == Some(false) && page.toolArgumentsIncluded == Some(false)
       && (match page.nextOffset
           case None => end == total
           case Some(next) => text != [] && next == end && next < total)
       && (offset == 0 && end == total ==> sha(text) == digest)
  }

  predicate PartialPageOk(e: Encoded, q: Query, sha: Digest) {
    && e.Decoded? && e.length <= MAX_ENCODED_BYTES && EnvelopeOk(e.reply, q)
    && if e.reply.partial.available then PageOk(e.reply, q, sha)
       else q.offset == 0 && q.sha256.None? && e.reply.partial == NoPage
  }

  // ---------- The collector ----------

  datatype Collector = Collector(runId: string, revision: nat, assembly: Assembly)

  datatype PushError = InvalidPage | Unavailable | InvalidExport

  function New(runId: string, revision: nat): Collector {
    Collector(runId, revision, Empty)
  }

  function QueryOf(c: Collector): Query {
    Query(c.runId, c.revision, |c.assembly.bytes|,
          match c.assembly.identity case None => None case Some(i) => Some(i.sha256))
  }

  function PieceOf(r: Reply): Piece
    requires r.turn.Some? && r.partial.text.Some? && r.partial.totalBytes.Some? && r.partial.sha256.Some?
  {
    Piece(Identity(r.partial.totalBytes.value, r.partial.sha256.value,
                   Some(Origin(r.sessionId, r.turn.value, r.status))),
          r.partial.text.value, r.partial.nextOffset.None?)
  }

  /** The page as a piece of the export, or why it is refused. */
  function Examine(c: Collector, e: Encoded, sha: Digest): Result<Piece, PushError> {
    if c.assembly.complete || c.assembly.pages >= PAGE_BUDGET then Err(InvalidExport)
    else if !PartialPageOk(e, QueryOf(c), sha) then Err(InvalidPage)
    else if !e.reply.partial.available then Err(Unavailable)
    else if c.assembly.identity.Some? && c.assembly.identity.value != PieceOf(e.reply).identity then Err(InvalidExport)
    else Ok(PieceOf(e.reply))
  }

  function Push(c: Collector, e: Encoded, sha: Digest): Collector {
    match Examine(c, e, sha)
    case Ok(piece) => c.(assembly := Grow(c.assembly, piece))
    case Err(_) => c
  }

  /** The collector with its fields updated in place. */
  class PartialExportPages {
    const runId: string
    const revision: nat
    const sha: Digest
    var bytes: seq<Byte>
    var identity: Option<Identity>
    var complete: bool
    var pages: nat

    function Value(): Collector
      reads this
    {
      Collector(runId, revision, Assembly(bytes, identity, complete, pages))
    }

    constructor (run: string, rev: nat, digest: Digest)
      ensures Value() == New(run, rev) && sha == digest
    {
      runId, revision, sha := run, rev, digest;
      bytes, identity, complete, pages := [], None, false, 0;
    }

    /** A refused page changes nothing; an accepted one is appended under the pinned identity. */
    method PushPage(e: Encoded) returns (r: Result<bool, PushError>)
      modifies this
      ensures Value() == Push(old(Value()), e, sha)
      ensures match Examine(old(Value()), e, sha)
              case Ok(piece) => r == Ok(piece.last)
              case Err(error) => r == Err(error) && Value() == old(Value())
    {
      if complete || pages >= PAGE_BUDGET {
        return Err(InvalidExport);
      }
      if !PartialPageOk(e, QueryOf(Value()), sha) {
        return Err(InvalidPage);
      }
      if !e.reply.partial.available {
        return Err(Unavailable);
      }
      var received := PieceOf(e.reply).identity;
      if identity.Some? && identity.value != received {
        return Err(InvalidExport);
      }
      if identity.None? {
        identity := Some(received);
      }
      bytes := bytes + e.reply.partial.text.value;
      pages := pages + 1;
      complete := e.reply.partial.nextOffset.None?;
      r := Ok(complete);
    }
  }

  // ---------- Any responses at all ----------

  /** The examination as a function of the assembly alone. */
  function Examiner(runId: string, revision: nat, sha: Digest): (Assembly, Encoded) -> Option<Piece> {
    (a, e) => match Examine(Collector(runId, revision, a), e, sha) case Ok(piece) => Some(piece) case Err(_) => None
  }

  lemma ExaminerIsCareful(runId: string, revision: nat, sha: Digest)
    ensures Careful(Examiner(runId, revision, sha))
  {
  }

  /**
    What a response must be to be taken, field by field: the answer for this run and revision, final,
    untouched and unprivileged, with the next stretch of text under the identity pinned so far.
   */
  predicate Genuine(c: Collector, e: Encoded, sha: Digest) {
    && e.Decoded? && e.length <= 16 * 1024
    && var r, p := e.reply, e.reply.partial;
       && r.runId == c.runId && r.revision == c.revision && c.revision != 0
       && r.durable && !r.acknowledged && !r.automaticReplay && r.turn.Some?
       && (r.status == "completed" || r.status == "completed_with_changes" || r.status == "cancelled"
           || r.status == "failed" || r.status == "outcome_unknown")
       && 0 < |r.sessionId| <= 128
       && (forall i | 0 <= i < |r.sessionId| :: r.sessionId[i] >= ' ' && !('\U{7f}' <= r.sessionId[i] <= '\U{9f}'))
       && p.available && p.untrusted == Some(true) && p.messageComplete == Some(false)
       && p.reasoningIncluded == Some(false) && p.toolArgumentsIncluded == Some(false)
       && p.offset == Some(|c.assembly.bytes|) && p.text.Some? && p.totalBytes.Some? && p.sha256.Some?
       && var end := |c.assembly.bytes| + |p.text.value|;
          && |p.text.value| <= 2048 && p.totalBytes.value <= 4 * 1024 * 1024 && end <= p.totalBytes.value
          && |p.sha256.value| == 64
          && (forall i | 0 <= i < 64 :: '0' <= p.sha256.value[i] <= '9' || 'a' <= p.sha256.value[i] <= 'f')
          && (if end == p.totalBytes.value then p.nextOffset == None
              else p.nextOffset == Some(end) && p.text.value != [])
          && (c.assembly.bytes == [] && end == p.totalBytes.value ==> sha(p.text.value) == p.sha256.value)
          && (c.assembly.identity.Some? ==>
                c.assembly.identity.value
                == Identity(p.totalBytes.value, p.sha256.value, Some(Origin(r.sessionId, r.turn.value, r.status))))
  }

  /** Exactly the genuine responses are taken, while the export is open and within its budget. */
  lemma TakenExactlyIfGenuine(c: Collector, e: Encoded, sha: Digest)
    ensures Examine(c, e, sha).Ok? <==> !c.assembly.complete && c.assembly.pages < 4096 && Genuine(c, e, sha)
    ensures Examine(c, e, sha).Ok? ==>
      var p := e.reply.partial;
      Examine(c, e, sha).value
      == Piece(Identity(p.totalBytes.value, p.sha256.value, Some(Origin(e.reply.sessionId, e.reply.turn.value, e.reply.status))),
               p.text.value, p.nextOffset.None?)
  {
    if Genuine(c, e, sha) {
      assert forall ch <- e.reply.sessionId :: !Control(ch);
      assert forall ch <- e.reply.partial.sha256.value :: '0' <= ch <= '9' || 'a' <= ch <= 'f';
    }
    if Examine(c, e, sha).Ok? {
      var id, digest := e.reply.sessionId, e.reply.partial.sha256.value;
      assert forall i | 0 <= i < |id| :: id[i] in id && !Control(id[i]);
      assert forall i | 0 <= i < |digest| :: digest[i] in digest;
    }
  }

  /** A finished or overlong export is refused as such; only an empty reply to the first query says there is no text. */
  lemma RefusalsAreNamed(c: Collector, e: Encoded, sha: Digest)
    ensures c.assembly.complete || c.assembly.pages >= 4096 ==> Examine(c, e, sha) == Err(InvalidExport)
    ensures !c.assembly.complete && c.assembly.pages < 4096 && (e.Malformed? || e.reply.runId != c.runId) ==>
      Examine(c, e, sha) == Err(InvalidPage)
    ensures Examine(c, e, sha) == Err(Unavailable) ==>
      && c.assembly.bytes == [] && c.assembly.identity.None? && e.Decoded? && e.length <= 16 * 1024
      && e.reply.runId == c.runId && e.reply.revision == c.revision
      && e.reply.partial == PageText(false, None, None, None, None, None, None, None, None, None)
  {
  }

  /** The collector never holds more than its budget of pages, whatever it is sent. */
  lemma {:induction false} BudgetKept(runId: string, revision: nat, sha: Digest, a: Assembly, es: seq<Encoded>)
    requires a.pages <= PAGE_BUDGET
    ensures Collected(Examiner(runId, revision, sha), a, es).pages <= PAGE_BUDGET
    decreases |es|
  {
    if es != [] {
      BudgetKept(runId, revision, sha, Taken(Examiner(runId, revision, sha), a, es[0]), es[1..]);
    }
  }

  // ---------- The daemon's side ----------

  const WORD := 0x1_0000_0000_0000_0000

  datatype StoredRun = StoredRun(id: string, sessionId: string, revision: nat, turn: nat, status: string, text: seq<Byte>)

  /** What the daemon guarantees of a terminal run it retains. */
  predicate Presentable(run: StoredRun, sha: Digest) {
    && run.revision != 0 && 0 < |run.sessionId| <= 128 && (forall c <- run.sessionId :: !Control(c))
    && run.status in {"completed", "completed_with_changes", "cancelled", "failed", "outcome_unknown"}
    && |run.text| <= MAX_EXPORT_BYTES && IsDigest(sha(run.text))
  }

  function IdentityOf(run: StoredRun, sha: Digest): Identity {
    Identity(|run.text|, sha(run.text), Some(Origin(run.sessionId, run.turn, run.status)))
  }

  /** The reply that carries `chunk`, found at `offset` of the retained text. */
  function ReplyWith(run: StoredRun, offset: nat, chunk: seq<Byte>, sha: Digest): Reply {
    var end := offset + |chunk|;
    Reply(run.id, run.sessionId, run.revision, Some(run.turn), run.status,
          PageText(true, Some(chunk), Some(offset), if end < |run.text| then Some(end) else None,
                   Some(|run.text|), Some(sha(run.text)), Some(false), Some(true), Some(false), Some(false)),
          true, false, false)
  }

  /** `gateway_partial_run` and `partial_text_page`: the next page, or a refusal. */
  function Serve(run: StoredRun, q: Query, sha: Digest): Option<Reply> {
    if q.revision == 0 || q.revision != run.revision
       || |run.text| > MAX_EXPORT_BYTES || q.offset > |run.text| || !Boundary(run.text, q.offset)
       || (q.offset > 0 && q.sha256.None?)
       || (q.sha256.Some? && q.sha256.value != sha(run.text))
    then None
    else Some(ReplyWith(run, q.offset, run.text[q.offset..PageEnd(run.text, q.offset)], sha))
  }

  /** The daemon answers exactly the queries it may, with the stretch that was asked for. */
  lemma ServesWhatIsAsked(run: StoredRun, q: Query, sha: Digest)
    ensures Serve(run, q, sha).Some? <==>
      && q.revision == run.revision && q.revision != 0 && |run.text| <= 4 * 1024 * 1024
      && (q.offset == 0 || q.offset == |run.text| || (q.offset < |run.text| && !Tail(run.text[q.offset])))
      && (q.sha256 == Some(sha(run.text)) || (q.sha256 == None && q.offset == 0))
    ensures ValidUtf8(run.text) && Serve(run, q, sha).Some? ==>
      var r := Serve(run, q, sha).value;
      && r.runId == run.id && r.sessionId == run.sessionId && r.revision == run.revision && r.turn == Some(run.turn)
      && r.status == run.status && r.partial.available && r.partial.offset == Some(q.offset)
      && r.partial.totalBytes == Some(|run.text|) && r.partial.sha256 == Some(sha(run.text)) && r.partial.text.Some?
      && q.offset + |r.partial.text.value| <= |run.text|
      && r.partial.text.value == run.text[q.offset..q.offset + |r.partial.text.value|]
  {
    if ValidUtf8(run.text) && Serve(run, q, sha).Some? {
      PageIsNearlyFull(run.text, q.offset);
    }
  }

  // ---------- The size of a reply ----------

  /** Run ids are digests; revisions and turns are 64-bit numbers. */
  predicate Numbered(run: StoredRun) {
    IsDigest(run.id) && run.revision < WORD && run.turn < WORD
  }

  function PageLength(p: PageText): nat {
    if !p.available then 2 + Field("available", 5)
    else
      11
      + Field("available", 4) + Field("text", OptionalText(p.text))
      + Field("offset", OptionalNumber(p.offset))
      + Field("nextOffset", OptionalNumber(p.nextOffset))
      + Field("totalBytes", OptionalNumber(p.totalBytes))
      + Field("sha256", OptionalString(p.sha256))
      + Field("messageComplete", OptionalBool(p.messageComplete))
      + Field("untrusted", OptionalBool(p.untrusted))
      + Field("reasoningIncluded", OptionalBool(p.reasoningIncluded))
      + Field("toolArgumentsIncluded", OptionalBool(p.toolArgumentsIncluded))
  }

  function ReplyLength(r: Reply): nat {
    10
    + Field("runId", StringLength(r.runId)) + Field("sessionId", StringLength(r.sessionId))
    + Field("revision", NumberLength(r.revision)) + Field("turn", OptionalNumber(r.turn))
    + Field("status", StringLength(r.status)) + Field("partial", PageLength(r.partial))
    + Field("durable", BoolLength(r.durable)) + Field("acknowledged", BoolLength(r.acknowledged))
    + Field("automaticReplay", BoolLength(r.automaticReplay))
  }

  lemma PageFits(run: StoredRun, offset: nat, chunk: seq<Byte>, sha: Digest)
    requires Presentable(run, sha) && |chunk| <= PAGE_BYTES && offset + |chunk| <= |run.text|
    ensures PageLength(ReplyWith(run, offset, chunk, sha).partial) <= 13000
  {
    WordLength(offset);
    WordLength(offset + |chunk|);
    WordLength(|run.text|);
  }

  /** Even if every byte of a full page needs its longest escape, the reply keeps within the frame limit. */
  lemma ReplyFits(run: StoredRun, offset: nat, chunk: seq<Byte>, sha: Digest)
    requires Presentable(run, sha) && Numbered(run) && |chunk| <= PAGE_BYTES && offset + |chunk| <= |run.text|
    ensures ReplyLength(ReplyWith(run, offset, chunk, sha)) <= MAX_ENCODED_BYTES
  {
    PageFits(run, offset, chunk, sha);
    WordLength(run.revision);
    WordLength(run.turn);
    assert |run.status| <= 22;
  }

  /** A reply with the next chunk of the text passes every check, wherever the text was cut. */
  lemma NextChunkIsAccepted(run: StoredRun, a: Assembly, chunk: seq<Byte>, length: nat, sha: Digest)
    requires Presentable(run, sha) && Holding(a, run.text, IdentityOf(run, sha)) && a.pages < PAGE_BUDGET
    requires length <= MAX_ENCODED_BYTES
    requires |chunk| <= PAGE_BYTES && a.bytes + chunk <= run.text
    requires chunk != [] || |a.bytes| == |run.text|
    ensures Examiner(run.id, run.revision, sha)(a, Decoded(length, ReplyWith(run, |a.bytes|, chunk, sha)))
      == Some(Piece(IdentityOf(run, sha), chunk, |a.bytes| + |chunk| == |run.text|))
  {
    if a.bytes == [] && |chunk| == |run.text| {
      assert chunk == run.text;
    }
  }

  /** Replies that carry a faithful cut, piece by piece, each of its own encoded length. */
  function Replies(run: StoredRun, offset: nat, ps: seq<Piece>, lengths: seq<nat>, sha: Digest): seq<Encoded>
    requires |lengths| == |ps|
    decreases |ps|
  {
    if ps == [] then []
    else [Decoded(lengths[0], ReplyWith(run, offset, ps[0].text, sha))]
         + Replies(run, offset + |ps[0].text|, ps[1..], lengths[1..], sha)
  }

  /** Round trip: however the text is cut into pages, collecting the replies gives the text back. */
  lemma {:induction false} RoundTrip(run: StoredRun, a: Assembly, ps: seq<Piece>, lengths: seq<nat>, sha: Digest)
    requires Presentable(run, sha) && Holding(a, run.text, IdentityOf(run, sha))
    requires FaithfulCut(run.text, IdentityOf(run, sha), |a.bytes|, ps) && a.pages + |ps| <= PAGE_BUDGET
    requires a.bytes != run.text || run.text == []
    requires |lengths| == |ps| && forall i | 0 <= i < |lengths| :: lengths[i] <= MAX_ENCODED_BYTES
    ensures Verified(Collected(Examiner(run.id, run.revision, sha), a, Replies(run, |a.bytes|, ps, lengths, sha)), sha)
      == Some(run.text)
    decreases |ps|
  {
    var examine := Examiner(run.id, run.revision, sha);
    var es := Replies(run, |a.bytes|, ps, lengths, sha);
    NextChunkIsAccepted(run, a, ps[0].text, lengths[0], sha);
    var next := Grow(a, ps[0]);
    assert Taken(examine, a, es[0]) == next;
    assert es[1..] == Replies(run, |next.bytes|, ps[1..], lengths[1..], sha);
    if ps[0].last {
      assert next.bytes == run.text && es[1..] == [];
      assert Collected(examine, a, es) == Collected(examine, next, []);
    } else {
      assert next.bytes == run.text[..|next.bytes|];
      RoundTrip(run, next, ps[1..], lengths[1..], sha);
    }
  }

  // ---------- The collection loop ----------

  datatype CollectError = PageLimit | Refused | Rejected(reason: PushError) | Incomplete

  /** The peer is the daemon, serving this run within the frame limit. */
  ghost predicate Serves(peer: Query -> Option<Encoded>, run: StoredRun, sha: Digest) {
    forall q: Query :: q.runId == run.id && Serve(run, q, sha).Some? ==>
      peer(q).Some? && peer(q).value.Decoded? && peer(q).value.length <= MAX_ENCODED_BYTES
      && peer(q).value.reply == Serve(run, q, sha).value
  }

  /** The peer sends the daemon's replies, encoded to the given lengths. */
  ghost predicate Sends(peer: Query -> Option<Encoded>, run: StoredRun, sha: Digest, length: Reply -> nat) {
    forall q: Query :: q.runId == run.id && Serve(run, q, sha).Some? ==>
      peer(q) == Some(Decoded(length(Serve(run, q, sha).value), Serve(run, q, sha).value))
  }

  lemma ShortRepliesServe(peer: Query -> Option<Encoded>, run: StoredRun, sha: Digest, length: Reply -> nat)
    requires Sends(peer, run, sha, length)
    requires forall q: Query :: Serve(run, q, sha).Some? ==> length(Serve(run, q, sha).value) <= MAX_ENCODED_BYTES
    ensures Serves(peer, run, sha)
  {
  }

  lemma ServedReplyFits(run: StoredRun, q: Query, sha: Digest)
    requires Presentable(run, sha) && Numbered(run) && ValidUtf8(run.text) && Serve(run, q, sha).Some?
    ensures ReplyLength(Serve(run, q, sha).value) <= MAX_ENCODED_BYTES
  {
    PageIsNearlyFull(run.text, q.offset);
    ReplyFits(run, q.offset, run.text[q.offset..PageEnd(run.text, q.offset)], sha);
  }

  /** Compact JSON always is within the frame limit, so any peer that sends the daemon's replies in it serves. */
  lemma CompactRepliesServe(peer: Query -> Option<Encoded>, run: StoredRun, sha: Digest)
    requires Presentable(run, sha) && Numbered(run) && ValidUtf8(run.text) && Sends(peer, run, sha, ReplyLength)
    ensures Serves(peer, run, sha)
  {
    forall q: Query | Serve(run, q, sha).Some?
      ensures ReplyLength(Serve(run, q, sha).value) <= MAX_ENCODED_BYTES
    {
      ServedReplyFits(run, q, sha);
    }
    ShortRepliesServe(peer, run, sha, ReplyLength);
  }

  /** At every turn of the loop the daemon has an answer, the collector takes it and stays on track. */
  lemma DaemonKeepsOnTrack(run: StoredRun, a: Assembly, length: nat, sha: Digest)
    requires Presentable(run, sha) && ValidUtf8(run.text)
    requires OnTrack(run.text, IdentityOf(run, sha), a) && !a.complete
    requires length <= MAX_ENCODED_BYTES
    ensures a.pages < PAGE_BUDGET
    ensures var c := Collector(run.id, run.revision, a);
      && Serve(run, QueryOf(c), sha).Some?
      && var next := Examiner(run.id, run.revision, sha)(a, Decoded(length, Serve(run, QueryOf(c), sha).value));
         next.Some? && OnTrack(run.text, IdentityOf(run, sha), Grow(a, next.value))
  {
    var i := IdentityOf(run, sha);
    NextPieceStaysOnTrack(run.text, i, a);
    NextChunkIsAccepted(run, a, NextPiece(run.text, i, a).text, length, sha);
  }

  // What the loop knows after some responses, and what it asks next.

  function HeldAfter(runId: string, revision: nat, sha: Digest, used: seq<Encoded>): Collector {
    Collector(runId, revision, Collected(Examiner(runId, revision, sha), Empty, used))
  }

  /** The responses are the peer's own: each is its answer to the query that the earlier ones lead to. */
  ghost predicate Answers(peer: Query -> Option<Encoded>, runId: string, revision: nat, sha: Digest, used: seq<Encoded>) {
    forall k | 0 <= k < |used| :: peer(QueryOf(HeldAfter(runId, revision, sha, used[..k]))) == Some(used[k])
  }

  /** Every response was genuine when it came. */
  ghost predicate AllGenuine(runId: string, revision: nat, sha: Digest, used: seq<Encoded>) {
    forall k | 0 <= k < |used| :: Genuine(HeldAfter(runId, revision, sha, used[..k]), used[k], sha)
  }

  lemma GenuineExtend(runId: string, revision: nat, sha: Digest, used: seq<Encoded>, e: Encoded)
    requires AllGenuine(runId, revision, sha, used) && Genuine(HeldAfter(runId, revision, sha, used), e, sha)
    ensures AllGenuine(runId, revision, sha, used + [e])
  {
    var more := used + [e];
    forall k | 0 <= k < |more|
      ensures Genuine(HeldAfter(runId, revision, sha, more[..k]), more[k], sha)
    {
      assert more[..k] == used[..k];
      assert k == |used| ==> used[..k] == used;
    }
  }

  lemma AnswersExtend(peer: Query -> Option<Encoded>, runId: string, revision: nat, sha: Digest, used: seq<Encoded>, e: Encoded)
    requires Answers(peer, runId, revision, sha, used)
    requires peer(QueryOf(HeldAfter(runId, revision, sha, used))) == Some(e)
    ensures Answers(peer, runId, revision, sha, used + [e])
  {
    var more := used + [e];
    forall k | 0 <= k < |more|
      ensures peer(QueryOf(HeldAfter(runId, revision, sha, more[..k]))) == Some(more[k])
    {
      assert more[..k] == used[..k];
      assert k == |used| ==> used[..k] == used;
    }
  }

  /** Why the loop ended as it did, in terms of the responses it got. */
  ghost predicate Explains(r: Result<seq<Byte>, CollectError>, peer: Query -> Option<Encoded>, runId: string, revision: nat,
                           sha: Digest, used: seq<Encoded>) {
    var c := HeldAfter(runId, revision, sha, used);
    match r
    case Ok(content) =>
      Verified(c.assembly, sha) == Some(content) && content == Texts(Accepted(Examiner(runId, revision, sha), Empty, used))
    case Err(PageLimit) => c.assembly.pages == PAGE_BUDGET && !c.assembly.complete
    case Err(Refused) => peer(QueryOf(c)).None?
    case Err(Rejected(reason)) =>
      used != []
      && Examine(HeldAfter(runId, revision, sha, used[..|used| - 1]), used[|used| - 1], sha) == Err(reason)
    case Err(Incomplete) => c.assembly.complete && Verified(c.assembly, sha).None?
  }

  /** One more answer: it is pushed, and if it was refused that explains the end. */
  lemma AnswerTaken(peer: Query -> Option<Encoded>, runId: string, revision: nat, sha: Digest, used: seq<Encoded>, e: Encoded)
    requires Answers(peer, runId, revision, sha, used) && AllGenuine(runId, revision, sha, used)
    requires peer(QueryOf(HeldAfter(runId, revision, sha, used))) == Some(e)
    ensures Answers(peer, runId, revision, sha, used + [e])
    ensures Examine(HeldAfter(runId, revision, sha, used), e, sha).Ok? ==> AllGenuine(runId, revision, sha, used + [e])
    ensures HeldAfter(runId, revision, sha, used + [e]) == Push(HeldAfter(runId, revision, sha, used), e, sha)
    ensures var examined := Examine(HeldAfter(runId, revision, sha, used), e, sha);
      examined.Err? ==> Explains(Err(Rejected(examined.error)), peer, runId, revision, sha, used + [e])
  {
    AnswersExtend(peer, runId, revision, sha, used, e);
    TakenExactlyIfGenuine(HeldAfter(runId, revision, sha, used), e, sha);
    if Genuine(HeldAfter(runId, revision, sha, used), e, sha) {
      GenuineExtend(runId, revision, sha, used, e);
    }
    CollectedExtends(Examiner(runId, revision, sha), Empty, used, e);
    assert (used + [e])[..|used|] == used;
  }

  function Finish(a: Assembly, sha: Digest): Result<seq<Byte>, CollectError> {
    match Verified(a, sha)
    case Some(content) => Ok(content)
    case None => Err(Incomplete)
  }

  lemma FinishExplained(peer: Query -> Option<Encoded>, runId: string, revision: nat, sha: Digest, used: seq<Encoded>)
    requires HeldAfter(runId, revision, sha, used).assembly.complete
    ensures Explains(Finish(HeldAfter(runId, revision, sha, used).assembly, sha), peer, runId, revision, sha, used)
  {
    ExaminerIsCareful(runId, revision, sha);
    VerifiedContentIsIntact(Examiner(runId, revision, sha), used, sha);
  }

  /** The peer is the daemon and retains the text of this run. */
  ghost predicate Retains(peer: Query -> Option<Encoded>, runId: string, revision: nat, run: StoredRun, sha: Digest) {
    Serves(peer, run, sha) && Presentable(run, sha) && ValidUtf8(run.text) && runId == run.id && revision == run.revision
  }

  /** A collection from the daemon is on track; from anyone else nothing is promised. */
  ghost predicate Honest(peer: Query -> Option<Encoded>, c: Collector, run: StoredRun, sha: Digest) {
    Retains(peer, c.runId, c.revision, run, sha) ==> OnTrack(run.text, IdentityOf(run, sha), c.assembly)
  }

  lemma HonestTurn(peer: Query -> Option<Encoded>, c: Collector, run: StoredRun, sha: Digest)
    requires Honest(peer, c, run, sha) && !c.assembly.complete
    ensures Retains(peer, c.runId, c.revision, run, sha) ==>
      c.assembly.pages < PAGE_BUDGET && peer(QueryOf(c)).Some? && Examine(c, peer(QueryOf(c)).value, sha).Ok?
    ensures peer(QueryOf(c)).Some? ==> Honest(peer, Push(c, peer(QueryOf(c)).value, sha), run, sha)
  {
    if Retains(peer, c.runId, c.revision, run, sha) {
      DaemonAnswers(run, c.assembly, peer, sha);
    }
  }

  lemma HonestEnd(peer: Query -> Option<Encoded>, c: Collector, run: StoredRun, sha: Digest)
    requires Honest(peer, c, run, sha) && c.assembly.complete && Retains(peer, c.runId, c.revision, run, sha)
    ensures Finish(c.assembly, sha) == Ok(run.text) && (c.assembly.pages - 1) * (PAGE_BYTES - 3) <= |run.text|
  {
  }

  /**
    The export loop against any peer: it always ends within its budget, and what it returns is
    verified content, put together from the peer's own answers to its queries. Against the daemon it
    returns exactly the retained text, and needs little more than one page per 2045 bytes.
   */
  method CollectPartialExport(runId: string, revision: nat, peer: Query -> Option<Encoded>, sha: Digest,
                              ghost run: StoredRun)
    returns (r: Result<seq<Byte>, CollectError>, pages: nat, ghost used: seq<Encoded>)
    ensures pages <= PAGE_BUDGET && pages <= |used| <= pages + 1
    ensures Answers(peer, runId, revision, sha, used)
    ensures Explains(r, peer, runId, revision, sha, used)
    ensures r.Ok? ==> AllGenuine(runId, revision, sha, used)
    ensures Retains(peer, runId, revision, run, sha) ==>
      r == Ok(run.text) && (pages - 1) * (PAGE_BYTES - 3) <= |run.text|
  {
    var collector := new PartialExportPages(runId, revision, sha);
    used := [];
    var done := false;
    while !done
      invariant collector.sha == sha && collector.Value() == HeldAfter(runId, revision, sha, used)
      invariant Answers(peer, runId, revision, sha, used) && AllGenuine(runId, revision, sha, used)
      invariant |used| == collector.pages <= PAGE_BUDGET && done == collector.complete
      invariant Honest(peer, collector.Value(), run, sha)
      decreases PAGE_BUDGET - collector.pages, !done
    {
      HonestTurn(peer, collector.Value(), run, sha);
      if collector.pages >= PAGE_BUDGET {
        return Err(PageLimit), collector.pages, used;
      }
      var response := peer(QueryOf(collector.Value()));
      if response.None? {
        return Err(Refused), collector.pages, used;
      }
      AnswerTaken(peer, runId, revision, sha, used, response.value);
      var pushed := collector.PushPage(response.value);
      used := used + [response.value];
      if pushed.Err? {
        return Err(Rejected(pushed.error)), collector.pages, used;
      }
      done := pushed.value;
    }
    FinishExplained(peer, runId, revision, sha, used);
    if Retains(peer, runId, revision, run, sha) {
      HonestEnd(peer, collector.Value(), run, sha);
    }
    r := Finish(collector.Value().assembly, sha);
    pages := collector.pages;
  }

  lemma DaemonAnswers(run: StoredRun, a: Assembly, peer: Query -> Option<Encoded>, sha: Digest)
    requires Presentable(run, sha) && ValidUtf8(run.text)
    requires OnTrack(run.text, IdentityOf(run, sha), a) && !a.complete
    requires Serves(peer, run, sha)
    ensures a.pages < PAGE_BUDGET
    ensures var c := Collector(run.id, run.revision, a);
      && peer(QueryOf(c)).Some?
      && Examine(c, peer(QueryOf(c)).value, sha).Ok?
      && OnTrack(run.text, IdentityOf(run, sha), Push(c, peer(QueryOf(c)).value, sha).assembly)
  {
    var q := QueryOf(Collector(run.id, run.revision, a));
    DaemonKeepsOnTrack(run, a, 0, sha);
    DaemonKeepsOnTrack(run, a, peer(q).value.length, sha);
  }
}
