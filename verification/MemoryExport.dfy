/** Collecting a memory archive from the pages of the daemon's memory tool. */
module MemoryExport {
  import opened Basics
  import opened Utf8Pages
  import opened Assembly
  import opened JsonLength

  datatype MemoryPage = MemoryPage(
    archiveSchemaVersion: nat,
    notebookRevision: nat,
    sha256: string,
    totalBytes: nat,
    offset: nat,
    data: seq<Byte>,
    nextOffset: Option<nat>,
    plaintext: bool,
    untrustedContent: bool,
    grantsAuthority: bool)

  datatype EncodedPage = MalformedPage | DecodedPage(length: nat, page: MemoryPage)

  /** The closed checks on one page, against the bytes collected so far. */
  predicate MemoryPageOk(revision: nat, a: Assembly, page: MemoryPage) {
    var end := page.offset + |page.data|;
    && page.archiveSchemaVersion == 1 && page.notebookRevision == revision
    && page.plaintext && page.untrustedContent && !page.grantsAuthority
    && 0 < page.totalBytes <= MAX_EXPORT_BYTES
    && page.offset == |a.bytes| && 0 < |page.data| <= PAGE_BYTES
    && IsDigest(page.sha256) && end <= page.totalBytes
    && (match page.nextOffset
        case Some(next) => next == end && next < page.totalBytes
        case None => end == page.totalBytes)
    && (a.identity.Some? ==> a.identity.value.total == page.totalBytes && a.identity.value.sha256 == page.sha256)
  }

  function MemoryPiece(page: MemoryPage): Piece {
    Piece(Identity(page.totalBytes, page.sha256, None), page.data, page.nextOffset.None?)
  }

  /** The examination as a function of the assembly alone; a memory archive's identity has no origin. */
  function MemoryExaminer(revision: nat): (Assembly, EncodedPage) -> Option<Piece> {
    (a: Assembly, e: EncodedPage) =>
      if a.complete || !e.DecodedPage? || e.length > MAX_ENCODED_BYTES || !MemoryPageOk(revision, a, e.page)
         || (a.identity.Some? && a.identity.value.origin.Some?)
      then None else Some(MemoryPiece(e.page))
  }

  class MemoryArchivePages {
    const revision: nat
    var bytes: seq<Byte>
    var identity: Option<(nat, string)>
    var complete: bool
    ghost var pages: nat

    ghost function Value(): Assembly
      reads this
    {
      Assembly(bytes, if identity.None? then None else Some(Identity(identity.value.0, identity.value.1, None)),
               complete, pages)
    }

    constructor (rev: nat)
      ensures revision == rev && Value() == Empty
    {
      revision, bytes, identity, complete, pages := rev, [], None, false, 0;
    }

    /** A refused page changes nothing; an accepted one extends the archive. */
    method PushPage(e: EncodedPage) returns (r: Option<bool>)
      modifies this
      ensures Value() == Taken(MemoryExaminer(revision), old(Value()), e)
      ensures r.Some? <==> MemoryExaminer(revision)(old(Value()), e).Some?
      ensures r.Some? ==> r.value == complete
      ensures r.None? ==> Value() == old(Value())
    {
      if e.MalformedPage? || e.length > MAX_ENCODED_BYTES || complete {
        return None;
      }
      var page := e.page;
      var end := page.offset + |page.data|;
      if page.archiveSchemaVersion != 1 || page.notebookRevision != revision
         || !page.plaintext || !page.untrustedContent || page.grantsAuthority
         || page.totalBytes == 0 || page.totalBytes > MAX_EXPORT_BYTES
         || page.offset != |bytes| || page.data == [] || |page.data| > PAGE_BYTES
         || !IsDigest(page.sha256) || end > page.totalBytes
         || (page.nextOffset.Some? && (page.nextOffset.value != end || page.nextOffset.value >= page.totalBytes))
         || (page.nextOffset.None? && end != page.totalBytes)
         || (identity.Some? && (identity.value.0 != page.totalBytes || identity.value.1 != page.sha256))
      {
        return None;
      }
      if identity.None? {
        identity := Some((page.totalBytes, page.sha256));
      }
      bytes := bytes + page.data;
      complete := page.nextOffset.None?;
      pages := pages + 1;
      r := Some(complete);
    }
  }

  /** So every integrity statement about assemblies holds of memory archives too. */
  lemma MemoryExaminerIsCareful(revision: nat)
    ensures Careful(MemoryExaminer(revision))
  {
  }

  /** What a page must be to be taken, field by field. */
  predicate Genuine(revision: nat, a: Assembly, e: EncodedPage) {
    && e.DecodedPage? && e.length <= 16 * 1024
    && var p := e.page;
       var end := |a.bytes| + |p.data|;
       && p.archiveSchemaVersion == 1 && p.notebookRevision == revision
       && p.plaintext && p.untrustedContent && !p.grantsAuthority
       && p.offset == |a.bytes| && 0 < |p.data| <= 2048 && end <= p.totalBytes <= 4 * 1024 * 1024
       && |p.sha256| == 64 && (forall i | 0 <= i < 64 :: '0' <= p.sha256[i] <= '9' || 'a' <= p.sha256[i] <= 'f')
       && p.nextOffset == (if end == p.totalBytes then None else Some(end))
       && (a.identity.Some? ==> a.identity.value == Identity(p.totalBytes, p.sha256, None))
  }

  /** Exactly the genuine pages are taken, while the archive is open. */
  lemma TakenExactlyIfGenuine(revision: nat, a: Assembly, e: EncodedPage)
    ensures MemoryExaminer(revision)(a, e).Some? <==> !a.complete && Genuine(revision, a, e)
    ensures MemoryExaminer(revision)(a, e).Some? ==>
      MemoryExaminer(revision)(a, e).value
      == Piece(Identity(e.page.totalBytes, e.page.sha256, None), e.page.data, e.page.nextOffset.None?)
  {
    if Genuine(revision, a, e) {
      assert forall ch <- e.page.sha256 :: '0' <= ch <= '9' || 'a' <= ch <= 'f';
    }
    if MemoryExaminer(revision)(a, e).Some? {
      assert forall i | 0 <= i < |e.page.sha256| :: e.page.sha256[i] in e.page.sha256;
    }
  }

  // ---------- The daemon's side ----------

  /** What the daemon guarantees of an archive it encoded. */
  predicate Presentable(archive: seq<Byte>, sha: Digest) {
    0 < |archive| <= MAX_EXPORT_BYTES && IsDigest(sha(archive))
  }

  function IdentityOf(archive: seq<Byte>, sha: Digest): Identity {
    Identity(|archive|, sha(archive), None)
  }

  /** The page that carries `chunk`, found at `offset` of the archive. */
  function PageWith(archive: seq<Byte>, revision: nat, offset: nat, chunk: seq<Byte>, sha: Digest): MemoryPage {
    var end := offset + |chunk|;
    MemoryPage(1, revision, sha(archive), |archive|, offset, chunk,
               if end < |archive| then Some(end) else None, true, true, false)
  }

  /** `export_page` and `text_page`: the next page of the archive, or a refusal. */
  function ExportPage(archive: seq<Byte>, revision: nat, asked: nat, offset: nat, sha: Digest): Option<MemoryPage> {
    if asked != revision || |archive| > MAX_EXPORT_BYTES || offset > |archive| || !Boundary(archive, offset) then None
    else Some(PageWith(archive, revision, offset, archive[offset..PageEnd(archive, offset)], sha))
  }

  /** The page as compact JSON, the text of the tool's result. */
  function PageLength(p: MemoryPage): nat {
    11
    + Field("archiveSchemaVersion", NumberLength(p.archiveSchemaVersion))
    + Field("notebookRevision", NumberLength(p.notebookRevision)) + Field("sha256", StringLength(p.sha256))
    + Field("totalBytes", NumberLength(p.totalBytes)) + Field("offset", NumberLength(p.offset))
    + Field("data", TextLength(p.data)) + Field("nextOffset", OptionalNumber(p.nextOffset))
    + Field("plaintext", BoolLength(p.plaintext)) + Field("untrustedContent", BoolLength(p.untrustedContent))
    + Field("grantsAuthority", BoolLength(p.grantsAuthority))
  }

  /** Even if every byte of a full page needs its longest escape, the page keeps within the limit. */
  lemma MemoryPageFits(archive: seq<Byte>, revision: nat, offset: nat, chunk: seq<Byte>, sha: Digest)
    requires Presentable(archive, sha) && revision < 0x1_0000_0000_0000_0000
    requires |chunk| <= PAGE_BYTES && offset + |chunk| <= |archive|
    ensures PageLength(PageWith(archive, revision, offset, chunk, sha)) <= MAX_ENCODED_BYTES
  {
    WordLength(1);
    WordLength(revision);
    WordLength(|archive|);
    WordLength(offset);
    WordLength(offset + |chunk|);
  }

  /** The daemon answers exactly the offsets it may, with the stretch that was asked for. */
  lemma ExportsWhatIsAsked(archive: seq<Byte>, revision: nat, asked: nat, offset: nat, sha: Digest)
    ensures ExportPage(archive, revision, asked, offset, sha).Some? <==>
      && asked == revision && |archive| <= 4 * 1024 * 1024
      && (offset == 0 || offset == |archive| || (offset < |archive| && !Tail(archive[offset])))
    ensures ValidUtf8(archive) && ExportPage(archive, revision, asked, offset, sha).Some? ==>
      var p := ExportPage(archive, revision, asked, offset, sha).value;
      && p.notebookRevision == revision && p.offset == offset && p.totalBytes == |archive| && p.sha256 == sha(archive)
      && offset + |p.data| <= |archive| && p.data == archive[offset..offset + |p.data|]
      && p.plaintext && p.untrustedContent && !p.grantsAuthority
  {
    if ValidUtf8(archive) && ExportPage(archive, revision, asked, offset, sha).Some? {
      PageIsNearlyFull(archive, offset);
    }
  }

  /** A page with the next chunk of the archive passes every check, wherever the archive was cut. */
  lemma NextChunkIsTaken(archive: seq<Byte>, revision: nat, a: Assembly, chunk: seq<Byte>, length: nat, sha: Digest)
    requires Presentable(archive, sha) && Holding(a, archive, IdentityOf(archive, sha))
    requires length <= MAX_ENCODED_BYTES
    requires 0 < |chunk| <= PAGE_BYTES && a.bytes + chunk <= archive
    ensures MemoryExaminer(revision)(a, DecodedPage(length, PageWith(archive, revision, |a.bytes|, chunk, sha)))
      == Some(Piece(IdentityOf(archive, sha), chunk, |a.bytes| + |chunk| == |archive|))
  {
  }

  /** Pages that carry a faithful cut, piece by piece, each of its own encoded length. */
  function Pages(archive: seq<Byte>, revision: nat, offset: nat, ps: seq<Piece>, lengths: seq<nat>, sha: Digest)
    : seq<EncodedPage>
    requires |lengths| == |ps|
    decreases |ps|
  {
    if ps == [] then []
    else [DecodedPage(lengths[0], PageWith(archive, revision, offset, ps[0].text, sha))]
         + Pages(archive, revision, offset + |ps[0].text|, ps[1..], lengths[1..], sha)
  }

  /** Round trip: however a non-empty archive is cut into pages, collecting them gives the archive back. */
  lemma {:induction false} MemoryRoundTrip(archive: seq<Byte>, revision: nat, a: Assembly, ps: seq<Piece>,
                                           lengths: seq<nat>, sha: Digest)
    requires Presentable(archive, sha) && Holding(a, archive, IdentityOf(archive, sha)) && |a.bytes| < |archive|
    requires FaithfulCut(archive, IdentityOf(archive, sha), |a.bytes|, ps)
    requires |lengths| == |ps| && forall i | 0 <= i < |lengths| :: lengths[i] <= MAX_ENCODED_BYTES
    ensures Verified(Collected(MemoryExaminer(revision), a, Pages(archive, revision, |a.bytes|, ps, lengths, sha)), sha)
      == Some(archive)
    decreases |ps|
  {
    var examine := MemoryExaminer(revision);
    var es := Pages(archive, revision, |a.bytes|, ps, lengths, sha);
    NextChunkIsTaken(archive, revision, a, ps[0].text, lengths[0], sha);
    var next := Grow(a, ps[0]);
    assert Taken(examine, a, es[0]) == next;
    assert es[1..] == Pages(archive, revision, |next.bytes|, ps[1..], lengths[1..], sha);
    if ps[0].last {
      assert next.bytes == archive && es[1..] == [];
      assert Collected(examine, a, es) == Collected(examine, next, []);
    } else {
      assert next.bytes == archive[..|next.bytes|];
      MemoryRoundTrip(archive, revision, next, ps[1..], lengths[1..], sha);
    }
  }

  // ---------- The collection loop ----------

  /** The peer is the daemon, exporting this archive at this revision within the limit. */
  ghost predicate Exports(peer: nat -> Option<EncodedPage>, archive: seq<Byte>, revision: nat, sha: Digest) {
    forall offset: nat :: ExportPage(archive, revision, revision, offset, sha).Some? ==>
      peer(offset).Some? && peer(offset).value.DecodedPage? && peer(offset).value.length <= MAX_ENCODED_BYTES
      && peer(offset).value.page == ExportPage(archive, revision, revision, offset, sha).value
  }

  /** The peer sends the daemon's pages, encoded to the given lengths. */
  ghost predicate Sends(peer: nat -> Option<EncodedPage>, archive: seq<Byte>, revision: nat, sha: Digest,
                        length: MemoryPage -> nat) {
    forall offset: nat :: ExportPage(archive, revision, revision, offset, sha).Some? ==>
      var page := ExportPage(archive, revision, revision, offset, sha).value;
      peer(offset) == Some(DecodedPage(length(page), page))
  }

  lemma ShortPagesExport(peer: nat -> Option<EncodedPage>, archive: seq<Byte>, revision: nat, sha: Digest,
                         length: MemoryPage -> nat)
    requires Sends(peer, archive, revision, sha, length)
    requires forall offset: nat :: ExportPage(archive, revision, revision, offset, sha).Some? ==>
      length(ExportPage(archive, revision, revision, offset, sha).value) <= MAX_ENCODED_BYTES
    ensures Exports(peer, archive, revision, sha)
  {
  }

  /** Compact JSON always is within the limit, so any peer that sends the daemon's pages in it exports. */
  lemma CompactPagesExport(peer: nat -> Option<EncodedPage>, archive: seq<Byte>, revision: nat, sha: Digest)
    requires Presentable(archive, sha) && ValidUtf8(archive) && revision < 0x1_0000_0000_0000_0000
    requires Sends(peer, archive, revision, sha, PageLength)
    ensures Exports(peer, archive, revision, sha)
  {
    forall offset: nat | ExportPage(archive, revision, revision, offset, sha).Some?
      ensures PageLength(ExportPage(archive, revision, revision, offset, sha).value) <= MAX_ENCODED_BYTES
    {
      PageIsNearlyFull(archive, offset);
      MemoryPageFits(archive, revision, offset, archive[offset..PageEnd(archive, offset)], sha);
    }
    ShortPagesExport(peer, archive, revision, sha, PageLength);
  }

  lemma DaemonExports(archive: seq<Byte>, revision: nat, a: Assembly, peer: nat -> Option<EncodedPage>, sha: Digest)
    requires Presentable(archive, sha) && ValidUtf8(archive) && Exports(peer, archive, revision, sha)
    requires OnTrack(archive, IdentityOf(archive, sha), a) && !a.complete
    ensures a.pages < PAGE_BUDGET && peer(|a.bytes|).Some?
    ensures var next := MemoryExaminer(revision)(a, peer(|a.bytes|).value);
      next.Some? && OnTrack(archive, IdentityOf(archive, sha), Grow(a, next.value))
  {
    var i := IdentityOf(archive, sha);
    NextPieceStaysOnTrack(archive, i, a);
    assert ExportPage(archive, revision, revision, |a.bytes|, sha).Some?;
    NextChunkIsTaken(archive, revision, a, NextPiece(archive, i, a).text, peer(|a.bytes|).value.length, sha);
  }

  function HeldAfter(revision: nat, used: seq<EncodedPage>): Assembly {
    Collected(MemoryExaminer(revision), Empty, used)
  }

  /** The pages are the peer's own: each is its answer to the offset that the earlier ones lead to. */
  ghost predicate Answers(peer: nat -> Option<EncodedPage>, revision: nat, used: seq<EncodedPage>) {
    forall k | 0 <= k < |used| :: peer(|HeldAfter(revision, used[..k]).bytes|) == Some(used[k])
  }

  /** Every page was genuine when it came. */
  ghost predicate AllGenuine(revision: nat, used: seq<EncodedPage>) {
    forall k | 0 <= k < |used| :: Genuine(revision, HeldAfter(revision, used[..k]), used[k])
  }

  lemma GenuineExtend(revision: nat, used: seq<EncodedPage>, e: EncodedPage)
    requires AllGenuine(revision, used) && Genuine(revision, HeldAfter(revision, used), e)
    ensures AllGenuine(revision, used + [e])
  {
    var more := used + [e];
    forall k | 0 <= k < |more|
      ensures Genuine(revision, HeldAfter(revision, more[..k]), more[k])
    {
      assert more[..k] == used[..k];
      assert k == |used| ==> used[..k] == used;
    }
  }

  lemma AnswersExtend(peer: nat -> Option<EncodedPage>, revision: nat, used: seq<EncodedPage>, e: EncodedPage)
    requires Answers(peer, revision, used) && peer(|HeldAfter(revision, used).bytes|) == Some(e)
    ensures Answers(peer, revision, used + [e])
  {
    var more := used + [e];
    forall k | 0 <= k < |more|
      ensures peer(|HeldAfter(revision, more[..k]).bytes|) == Some(more[k])
    {
      assert more[..k] == used[..k];
      assert k == |used| ==> used[..k] == used;
    }
  }

  /** Why the loop ended as it did, in terms of the pages it got. */
  ghost predicate Explains(r: Option<seq<Byte>>, peer: nat -> Option<EncodedPage>, revision: nat,
                           valid: seq<Byte> -> bool, sha: Digest, used: seq<EncodedPage>) {
    var a := HeldAfter(revision, used);
    if r.Some? then
      Verified(a, sha) == r && valid(r.value) && r.value == Texts(Accepted(MemoryExaminer(revision), Empty, used))
    else
      || (!a.complete && a.pages == PAGE_BUDGET)
      || (!a.complete && peer(|a.bytes|).None?)
      || (used != [] && MemoryExaminer(revision)(HeldAfter(revision, used[..|used| - 1]), used[|used| - 1]).None?)
      || (a.complete && (Verified(a, sha).None? || !valid(a.bytes)))
  }

  /** One more answer: it is pushed, and if it was refused that explains the end. */
  lemma PageTaken(peer: nat -> Option<EncodedPage>, revision: nat, valid: seq<Byte> -> bool, sha: Digest,
                  used: seq<EncodedPage>, e: EncodedPage)
    requires Answers(peer, revision, used) && AllGenuine(revision, used)
    requires peer(|HeldAfter(revision, used).bytes|) == Some(e)
    ensures Answers(peer, revision, used + [e])
    ensures HeldAfter(revision, used + [e]) == Taken(MemoryExaminer(revision), HeldAfter(revision, used), e)
    ensures if MemoryExaminer(revision)(HeldAfter(revision, used), e).Some? then AllGenuine(revision, used + [e])
            else Explains(None, peer, revision, valid, sha, used + [e])
  {
    AnswersExtend(peer, revision, used, e);
    TakenExactlyIfGenuine(revision, HeldAfter(revision, used), e);
    if Genuine(revision, HeldAfter(revision, used), e) {
      GenuineExtend(revision, used, e);
    }
    CollectedExtends(MemoryExaminer(revision), Empty, used, e);
    assert (used + [e])[..|used|] == used;
  }

  /** `finish`: whole, of the pinned length and digest, and a valid archive of its own. */
  function Finish(bytes: seq<Byte>, identity: Option<(nat, string)>, complete: bool, valid: seq<Byte> -> bool, sha: Digest)
    : Option<seq<Byte>>
  {
    if identity.None? || !complete || |bytes| != identity.value.0 || sha(bytes) != identity.value.1 || !valid(bytes)
    then None else Some(bytes)
  }

  /** `finish` on an assembly. */
  function Finished(a: Assembly, valid: seq<Byte> -> bool, sha: Digest): Option<seq<Byte>> {
    if Verified(a, sha).Some? && valid(a.bytes) then Some(a.bytes) else None
  }

  lemma FinishExplained(peer: nat -> Option<EncodedPage>, revision: nat, valid: seq<Byte> -> bool, sha: Digest,
                        used: seq<EncodedPage>)
    requires HeldAfter(revision, used).complete
    ensures Explains(Finished(HeldAfter(revision, used), valid, sha), peer, revision, valid, sha, used)
  {
    MemoryExaminerIsCareful(revision);
    VerifiedContentIsIntact(MemoryExaminer(revision), used, sha);
  }

  /** The peer is the daemon and exports this valid archive. */
  ghost predicate Retains(peer: nat -> Option<EncodedPage>, revision: nat, archive: seq<Byte>, valid: seq<Byte> -> bool,
                          sha: Digest) {
    Exports(peer, archive, revision, sha) && Presentable(archive, sha) && ValidUtf8(archive) && valid(archive)
  }

  /** A collection from the daemon is on track; from anyone else nothing is promised. */
  ghost predicate Honest(peer: nat -> Option<EncodedPage>, revision: nat, a: Assembly, archive: seq<Byte>,
                         valid: seq<Byte> -> bool, sha: Digest) {
    Retains(peer, revision, archive, valid, sha) ==> OnTrack(archive, IdentityOf(archive, sha), a)
  }

  lemma HonestTurn(peer: nat -> Option<EncodedPage>, revision: nat, a: Assembly, archive: seq<Byte>,
                   valid: seq<Byte> -> bool, sha: Digest)
    requires Honest(peer, revision, a, archive, valid, sha) && !a.complete
    ensures Retains(peer, revision, archive, valid, sha) ==>
      a.pages < PAGE_BUDGET && peer(|a.bytes|).Some? && MemoryExaminer(revision)(a, peer(|a.bytes|).value).Some?
    ensures peer(|a.bytes|).Some? ==>
      Honest(peer, revision, Taken(MemoryExaminer(revision), a, peer(|a.bytes|).value), archive, valid, sha)
  {
    if Retains(peer, revision, archive, valid, sha) {
      DaemonExports(archive, revision, a, peer, sha);
    }
  }

  lemma HonestEnd(peer: nat -> Option<EncodedPage>, revision: nat, a: Assembly, archive: seq<Byte>,
                  valid: seq<Byte> -> bool, sha: Digest)
    requires Honest(peer, revision, a, archive, valid, sha) && a.complete && Retains(peer, revision, archive, valid, sha)
    ensures Finished(a, valid, sha) == Some(archive) && (a.pages - 1) * (PAGE_BYTES - 3) <= |archive|
  {
  }

  /**
    The export loop against any peer: it always ends within its budget, and what it returns is
    verified content, put together from the peer's own answers, that passed the archive's own
    validation. Against the daemon it returns exactly the archive.
   */
  method CollectMemoryArchive(revision: nat, peer: nat -> Option<EncodedPage>, valid: seq<Byte> -> bool, sha: Digest,
                              ghost archive: seq<Byte>)
    returns (r: Option<seq<Byte>>, pages: nat, ghost used: seq<EncodedPage>)
    ensures |used| == pages <= PAGE_BUDGET
    ensures Answers(peer, revision, used)
    ensures Explains(r, peer, revision, valid, sha, used)
    ensures r.Some? ==> AllGenuine(revision, used)
    ensures Retains(peer, revision, archive, valid, sha) ==>
      r == Some(archive) && (pages - 1) * (PAGE_BYTES - 3) <= |archive|
  {
    var collector := new MemoryArchivePages(revision);
    pages, used := 0, [];
    var done := false;
    while !done
      invariant collector.revision == revision && collector.pages == pages == |used| <= PAGE_BUDGET
      invariant collector.Value() == HeldAfter(revision, used) && done == collector.complete
      invariant Answers(peer, revision, used) && AllGenuine(revision, used)
      invariant Honest(peer, revision, collector.Value(), archive, valid, sha)
      decreases PAGE_BUDGET - pages, !done
    {
      HonestTurn(peer, revision, collector.Value(), archive, valid, sha);
      if pages >= PAGE_BUDGET {
        return None, pages, used;
      }
      var response := peer(|collector.bytes|);
      if response.None? {
        return None, pages, used;
      }
      pages := pages + 1;
      PageTaken(peer, revision, valid, sha, used, response.value);
      var pushed := collector.PushPage(response.value);
      used := used + [response.value];
      if pushed.None? {
        return None, pages, used;
      }
      done := pushed.value;
    }
    FinishExplained(peer, revision, valid, sha, used);
    if Retains(peer, revision, archive, valid, sha) {
      HonestEnd(peer, revision, collector.Value(), archive, valid, sha);
    }
    r := Finish(collector.bytes, collector.identity, collector.complete, valid, sha);
    assert r == Finished(collector.Value(), valid, sha);
  }
}
