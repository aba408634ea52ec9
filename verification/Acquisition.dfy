/** Downloading a signed release over connections that break: what is kept on disk, when it
    is resumed with a range request, and when it is discarded. SHA-256 is an arbitrary
    function of the bytes. */
module Acquisition {
  import opened Outcomes
  import Decimal

  type Byte = b: int | 0 <= b < 256

  const MAX_SAFE_INTEGER := 0x1F_FFFF_FFFF_FFFF
  const MAX_ETAG_LENGTH := 256

  // What is being acquired, from where.
  datatype Identity = Identity(sourceId: string, manifestSha256: string, fileName: string, sizeBytes: nat, sha256: string)

  datatype Record = Record(identity: Identity, strongEtag: Option<string>, rangeSupported: bool, downloadedBytes: nat)

  // The partial directory: absent, or a record with a file.
  datatype Disk = Nothing | Partial(record: Record, file: seq<Byte>)

  datatype Decision = StartNew | Resume(offset: nat, etag: string) | VerifyComplete(size: nat) | DiscardRestart

  datatype Failure =
    | RangeInvalid | RemoteIdentityChanged | RedirectRejected | ResponseInvalid | ArtifactTooLarge
    | CacheInvalid | PartialInvalid | Interrupted

  // ---------- Deciding ----------

  // A quoted string of visible characters without a quote: section 8.8.3 of RFC 9110,
  // without weak tags.
  predicate IsStrongEtag(s: string) {
    && 2 <= |s| <= MAX_ETAG_LENGTH && s[0] == '"' && s[|s| - 1] == '"'
    && forall i :: 0 < i < |s| - 1 ==> s[i] == '!' || '#' <= s[i] <= '~'
  }

  function DecidePartialDownload(disk: Disk, wanted: Identity): Decision {
    if disk.Nothing? then StartNew
    else
      var r, actual := disk.record, |disk.file|;
      if r.identity != wanted || r.downloadedBytes != actual || actual > wanted.sizeBytes then DiscardRestart
      else if actual == wanted.sizeBytes then VerifyComplete(actual)
      else if actual == 0 then StartNew
      else if r.rangeSupported && r.strongEtag.Some? && IsStrongEtag(r.strongEtag.value) then Resume(actual, r.strongEtag.value)
      else DiscardRestart
  }

  // ---------- Content-Range: section 14.4 of RFC 9110 ----------

  datatype Range = Range(start: nat, end: nat, total: nat)

  predicate IsDigits(s: string) {
    s != [] && forall i :: 0 <= i < |s| ==> '0' <= s[i] <= '9'
  }

  // Where c first occurs, or the length of s.
  function IndexOf(s: string, c: char): (i: nat)
    ensures i <= |s| && (i < |s| ==> s[i] == c) && forall j :: 0 <= j < i ==> s[j] != c
  {
    if s == [] || s[0] == c then 0 else 1 + IndexOf(s[1..], c)
  }

  const PREFIX := "bytes "

  function ParseContentRange(value: string): Option<Range> {
    if PREFIX <= value then ParseBounds(value[|PREFIX|..]) else None
  }

  function ParseBounds(rest: string): Option<Range> {
    var dash := IndexOf(rest, '-');
    if dash == |rest| then None else ParseEnd(rest[..dash], rest[dash + 1..])
  }

  function ParseEnd(first: string, rest: string): Option<Range> {
    var slash := IndexOf(rest, '/');
    if slash == |rest| then None else RangeOf(first, rest[..slash], rest[slash + 1..])
  }

  function RangeOf(first: string, last: string, complete: string): Option<Range> {
    if !IsDigits(first) || !IsDigits(last) || !IsDigits(complete) then None
    else
      var start, end, total := Decimal.Value(first), Decimal.Value(last), Decimal.Value(complete);
      if start > MAX_SAFE_INTEGER || end > MAX_SAFE_INTEGER || total > MAX_SAFE_INTEGER then None
      else if end < start || total <= end then None
      else Some(Range(start, end, total))
  }

  function RangeText(r: Range): string {
    PREFIX + Decimal.Text(r.start) + "-" + Decimal.Text(r.end) + "/" + Decimal.Text(r.total)
  }

  // A range is read back from its text exactly when it is a satisfiable one.
  lemma ContentRangeRoundTrip(r: Range)
    ensures ParseContentRange(RangeText(r)) == if r.start <= r.end < r.total <= MAX_SAFE_INTEGER then Some(r) else None
  {
    RangeParts(Decimal.Text(r.start), Decimal.Text(r.end), Decimal.Text(r.total));
    Decimal.ValueOfText(r.start);
    Decimal.ValueOfText(r.end);
    Decimal.ValueOfText(r.total);
  }

  lemma RangeParts(first: string, last: string, complete: string)
    requires IsDigits(first) && IsDigits(last) && IsDigits(complete)
    ensures ParseContentRange(PREFIX + first + "-" + last + "/" + complete) == RangeOf(first, last, complete)
  {
    var second := last + ['/'] + complete;
    AfterPrefix(PREFIX + first + "-" + last + "/" + complete, first + ['-'] + second);
    BoundsSplit(first, second);
    EndSplit(first, last, complete);
  }

  lemma BoundsSplit(first: string, second: string)
    requires IsDigits(first)
    ensures ParseBounds(first + ['-'] + second) == ParseEnd(first, second)
  {
    FirstOccurrence(first, '-', second);
  }

  lemma EndSplit(first: string, last: string, complete: string)
    requires IsDigits(last)
    ensures ParseEnd(first, last + ['/'] + complete) == RangeOf(first, last, complete)
  {
    FirstOccurrence(last, '/', complete);
  }

  lemma AfterPrefix(text: string, rest: string)
    requires text == PREFIX + rest
    ensures PREFIX <= text && text[|PREFIX|..] == rest
  {}

  lemma {:induction false} FirstOccurrence(a: string, c: char, b: string)
    requires c !in a
    ensures var s := a + [c] + b;
            IndexOf(s, c) == |a| && s[..|a|] == a && s[|a| + 1..] == b
  {
    var s := a + [c] + b;
    assert s[..|a|] == a && s[|a| + 1..] == b;
    if a != [] {
      assert s[1..] == a[1..] + [c] + b;
      assert s[0] == a[0] && a[0] in a;
      FirstOccurrence(a[1..], c, b);
    }
  }

  // ---------- The answer of the server ----------

  datatype Response = Response(
    status: nat, contentRange: Option<string>, contentLength: Option<nat>, etag: Option<string>, acceptsRanges: bool)

  function AssertResumeResponse(p: Response, etag: string, offset: nat, size: nat): Option<Failure> {
    if p.status != 206 || p.etag != Some(etag) then Some(RemoteIdentityChanged)
    else
      match ParseContentRange(if p.contentRange.Some? then p.contentRange.value else "")
      case None => Some(RangeInvalid)
      case Some(range) =>
        if range.start != offset || range.end != size - 1 || range.total != size
           || (p.contentLength.Some? && p.contentLength.value != size - offset)
        then Some(RangeInvalid)
        else None
  }

  function AssertFullResponse(p: Response, size: nat): Option<Failure> {
    if 300 <= p.status < 400 then Some(RedirectRejected)
    else if p.status != 200 || (p.contentLength.Some? && p.contentLength.value != size) then Some(ResponseInvalid)
    else None
  }

  // ---------- One transfer ----------

  // How it ends: no usable answer at all; broken off; finished; or the process dies, so that
  // the record is not brought up to date.
  datatype End = NoAnswer | Broken | Finished | Died

  // The chunks as they arrive. The last one may be torn: part of it is on disk, uncounted.
  datatype Transfer = Transfer(response: Response, chunks: seq<seq<Byte>>, torn: seq<Byte>, end: End)

  // The bytes written: the chunks up to the first that does not fit into the room left.
  function Written(chunks: seq<seq<Byte>>, room: nat): (r: seq<Byte>)
    ensures |r| <= room
  {
    if chunks == [] || |chunks[0]| > room then [] else chunks[0] + Written(chunks[1..], room - |chunks[0]|)
  }

  predicate AllFit(chunks: seq<seq<Byte>>, room: nat) {
    chunks == [] || (|chunks[0]| <= room && AllFit(chunks[1..], room - |chunks[0]|))
  }

  function Body(chunks: seq<seq<Byte>>): seq<Byte> {
    if chunks == [] then [] else chunks[0] + Body(chunks[1..])
  }

  lemma {:induction false} WrittenIsPrefix(chunks: seq<seq<Byte>>, room: nat)
    ensures Written(chunks, room) <= Body(chunks)
  {
    if chunks != [] && |chunks[0]| <= room {
      WrittenIsPrefix(chunks[1..], room - |chunks[0]|);
    }
  }

  // The record once the response is accepted: a resumed one stays, a new one takes the tag.
  function AfterResponse(r: Record, resumed: Option<string>, p: Response): Record {
    if resumed.Some? then r
    else r.(strongEtag := if p.etag.Some? && IsStrongEtag(p.etag.value) then p.etag else None, rangeSupported := p.acceptsRanges)
  }

  function Refusal(r: Record, offset: nat, resumed: Option<string>, t: Transfer): Option<Failure> {
    if t.end.NoAnswer? then Some(Interrupted)
    else if resumed.Some? then AssertResumeResponse(t.response, resumed.value, offset, r.identity.sizeBytes)
    else AssertFullResponse(t.response, r.identity.sizeBytes)
  }

  // What is on disk after the transfer, before the size and the checksum are looked at.
  function DiskAfter(r: Record, file: seq<Byte>, resumed: Option<string>, t: Transfer): Disk
    requires |file| <= r.identity.sizeBytes
  {
    if Refusal(r, |file|, resumed, t).Some? then Partial(r.(downloadedBytes := |file|), file)
    else
      var got := Written(t.chunks, r.identity.sizeBytes - |file|);
      var after := AfterResponse(r, resumed, t.response);
      if t.end.Finished? then Partial(after.(downloadedBytes := |file| + |got|), file + got)
      else if t.end.Died? then Partial(after, file + got + t.torn)
      else Partial(after.(downloadedBytes := |file| + |got|), file + got + t.torn)
  }

  function DownloadArtifact(
    sha256: seq<Byte> -> string, r: Record, file: seq<Byte>, resumed: Option<string>, t: Transfer): (Disk, Option<Failure>)
    requires |file| <= r.identity.sizeBytes
  {
    var size := r.identity.sizeBytes;
    var disk := DiskAfter(r, file, resumed, t);
    var refusal := Refusal(r, |file|, resumed, t);
    if refusal.Some? then (disk, refusal)
    else if !AllFit(t.chunks, size - |file|) then (disk, Some(ArtifactTooLarge))
    else if !t.end.Finished? then (disk, Some(Interrupted))
    else if |disk.file| != size then (disk, Some(ResponseInvalid))
    else if sha256(disk.file) != r.identity.sha256 then (Nothing, Some(CacheInvalid))
    else (disk, None)
  }

  // ---------- One acquisition ----------

  // The file that is promoted to the verified cache, or the failure.
  datatype Acquired = Acquired(disk: Disk, outcome: Result<seq<Byte>, Failure>)

  function VerifyAndPromote(sha256: seq<Byte> -> string, wanted: Identity, disk: Disk): Acquired
    requires disk.Partial?
  {
    if |disk.file| != wanted.sizeBytes then Acquired(disk, Err(PartialInvalid))
    else if sha256(disk.file) != wanted.sha256 then Acquired(Nothing, Err(CacheInvalid))
    else Acquired(Nothing, Ok(disk.file))
  }

  function NewRecord(wanted: Identity): Record {
    Record(wanted, None, false, 0)
  }

  function DownloadFromStart(sha256: seq<Byte> -> string, wanted: Identity, t: Transfer): Acquired {
    var (disk, failure) := DownloadArtifact(sha256, NewRecord(wanted), [], None, t);
    if failure.Some? then Acquired(disk, Err(failure.value)) else VerifyAndPromote(sha256, wanted, disk)
  }

  // The transfers are those of the range request, if one is made, and of the full request.
  function AcquireArtifact(sha256: seq<Byte> -> string, wanted: Identity, disk: Disk, ranged: Transfer, full: Transfer): Acquired {
    match DecidePartialDownload(disk, wanted)
    case VerifyComplete(_) => VerifyAndPromote(sha256, wanted, disk)
    case Resume(_, etag) =>
      var (after, failure) := DownloadArtifact(sha256, disk.record, disk.file, Some(etag), ranged);
      if failure.None? then VerifyAndPromote(sha256, wanted, after)
      else if failure.value.RangeInvalid? || failure.value.RemoteIdentityChanged? then DownloadFromStart(sha256, wanted, full)
      else Acquired(after, Err(failure.value))
    case StartNew => DownloadFromStart(sha256, wanted, full)
    case DiscardRestart => DownloadFromStart(sha256, wanted, full)
  }

  // ---------- Honest servers ----------

  // One strong tag never stands for two representations (section 8.8.1 of RFC 9110): what is
  // sent under it is part of the content it names, and a range tells its complete length
  // (sections 14.4 and 15.3.7).
  predicate HonestFull(content: string -> seq<Byte>, t: Transfer) {
    t.response.status == 200 && t.response.etag.Some? && IsStrongEtag(t.response.etag.value)
    ==> Body(t.chunks) <= content(t.response.etag.value)
  }

  predicate HonestRange(content: string -> seq<Byte>, offset: nat, t: Transfer) {
    t.response.status == 206 && t.response.etag.Some? && t.response.contentRange.Some?
    && ParseContentRange(t.response.contentRange.value).Some?
    && ParseContentRange(t.response.contentRange.value).value.start == offset
    ==>
      var all := content(t.response.etag.value);
      && offset <= |all| && ParseContentRange(t.response.contentRange.value).value.total == |all|
      && Body(t.chunks) <= all[offset..]
  }

  predicate Honest(content: string -> seq<Byte>, disk: Disk, wanted: Identity, ranged: Transfer, full: Transfer) {
    && HonestFull(content, full)
    && (DecidePartialDownload(disk, wanted).Resume? ==> HonestRange(content, |disk.file|, ranged))
  }

  // ---------- What is kept on disk ----------

  // The bytes that the record counts are there, and begin the content its tag names.
  predicate Trustworthy(content: string -> seq<Byte>, disk: Disk) {
    disk.Partial? ==>
      && disk.record.downloadedBytes <= |disk.file|
      && disk.record.downloadedBytes <= disk.record.identity.sizeBytes
      && (disk.record.strongEtag.Some? ==> disk.file[..disk.record.downloadedBytes] <= content(disk.record.strongEtag.value))
  }

  lemma FullKeepsTrust(content: string -> seq<Byte>, wanted: Identity, t: Transfer)
    requires HonestFull(content, t)
    ensures Trustworthy(content, DiskAfter(NewRecord(wanted), [], None, t))
  {
    var got := Written(t.chunks, wanted.sizeBytes);
    WrittenIsPrefix(t.chunks, wanted.sizeBytes);
    assert ([] + got + t.torn)[..|got|] == got;
    assert ([] + got)[..|got|] == got;
  }

  lemma AcceptedRange(content: string -> seq<Byte>, etag: string, offset: nat, size: nat, t: Transfer)
    requires HonestRange(content, offset, t) && AssertResumeResponse(t.response, etag, offset, size).None?
    ensures offset <= |content(etag)| == size && Body(t.chunks) <= content(etag)[offset..]
  {}

  lemma RangeKeepsTrust(content: string -> seq<Byte>, disk: Disk, wanted: Identity, t: Transfer)
    requires Trustworthy(content, disk) && DecidePartialDownload(disk, wanted).Resume?
    requires HonestRange(content, |disk.file|, t)
    ensures var after := DiskAfter(disk.record, disk.file, disk.record.strongEtag, t);
            && Trustworthy(content, after) && disk.file <= after.file
            && after.record.downloadedBytes >= disk.record.downloadedBytes
  {
    var r, file := disk.record, disk.file;
    assert file[..|file|] == file;
    if Refusal(r, |file|, r.strongEtag, t).None? {
      AcceptedRange(content, r.strongEtag.value, |file|, r.identity.sizeBytes, t);
      WrittenKeepsTrust(content, r, file, t);
    }
  }

  lemma WrittenKeepsTrust(content: string -> seq<Byte>, r: Record, file: seq<Byte>, t: Transfer)
    requires |file| == r.downloadedBytes <= r.identity.sizeBytes && r.strongEtag.Some?
    requires file <= content(r.strongEtag.value) && Body(t.chunks) <= content(r.strongEtag.value)[|file|..]
    ensures var got := Written(t.chunks, r.identity.sizeBytes - |file|);
            var counted := r.(downloadedBytes := |file| + |got|);
            && Trustworthy(content, Partial(counted, file + got)) && Trustworthy(content, Partial(counted, file + got + t.torn))
            && Trustworthy(content, Partial(r, file + got + t.torn))
            && file <= file + got && file <= file + got + t.torn
  {
    var got := Written(t.chunks, r.identity.sizeBytes - |file|);
    WrittenIsPrefix(t.chunks, r.identity.sizeBytes - |file|);
    PrefixGrows(file, got, content(r.strongEtag.value));
    Appended(file, got, t.torn);
    Appended(file, got, []);
  }

  lemma Appended(file: seq<Byte>, got: seq<Byte>, torn: seq<Byte>)
    ensures var all := file + got + torn;
            file <= all && all[..|file|] == file && all[..|file| + |got|] == file + got
    ensures torn == [] ==> file + got + torn == file + got
  {}

  lemma PrefixGrows(a: seq<Byte>, b: seq<Byte>, all: seq<Byte>)
    requires a <= all && b <= all[|a|..]
    ensures a + b <= all
  {
    assert all == a + all[|a|..];
  }

  lemma DownloadKeepsTrust(
    sha256: seq<Byte> -> string, content: string -> seq<Byte>, r: Record, file: seq<Byte>, resumed: Option<string>, t: Transfer)
    requires |file| <= r.identity.sizeBytes && Trustworthy(content, DiskAfter(r, file, resumed, t))
    ensures Trustworthy(content, DownloadArtifact(sha256, r, file, resumed, t).0)
  {}

  // Only what has the signed size and checksum is promoted.
  predicate IsSigned(sha256: seq<Byte> -> string, wanted: Identity, a: Acquired) {
    a.outcome.Ok? ==> |a.outcome.value| == wanted.sizeBytes && sha256(a.outcome.value) == wanted.sha256
  }

  lemma StartKeepsTrust(sha256: seq<Byte> -> string, content: string -> seq<Byte>, wanted: Identity, full: Transfer)
    requires HonestFull(content, full)
    ensures var a := DownloadFromStart(sha256, wanted, full);
            Trustworthy(content, a.disk) && IsSigned(sha256, wanted, a)
  {
    FullKeepsTrust(content, wanted, full);
    DownloadKeepsTrust(sha256, content, NewRecord(wanted), [], None, full);
  }

  // Every acquisition, however it ends, leaves a trustworthy disk, and promotes only what has
  // the signed size and checksum.
  lemma AcquisitionKeepsTrust(
    sha256: seq<Byte> -> string, content: string -> seq<Byte>, wanted: Identity, disk: Disk, ranged: Transfer, full: Transfer)
    requires Trustworthy(content, disk) && Honest(content, disk, wanted, ranged, full)
    ensures var a := AcquireArtifact(sha256, wanted, disk, ranged, full);
            Trustworthy(content, a.disk) && IsSigned(sha256, wanted, a)
  {
    StartKeepsTrust(sha256, content, wanted, full);
    if DecidePartialDownload(disk, wanted).Resume? {
      RangeKeepsTrust(content, disk, wanted, ranged);
      DownloadKeepsTrust(sha256, content, disk.record, disk.file, disk.record.strongEtag, ranged);
    }
  }

  // A completed range request has put together exactly the content named by the tag, of
  // exactly the signed size, from the bytes of all transfers it took.
  lemma CompletedResumeIsWhole(
    sha256: seq<Byte> -> string, content: string -> seq<Byte>, wanted: Identity, disk: Disk, t: Transfer)
    requires Trustworthy(content, disk) && DecidePartialDownload(disk, wanted).Resume?
    requires HonestRange(content, |disk.file|, t)
    requires DownloadArtifact(sha256, disk.record, disk.file, disk.record.strongEtag, t).1.None?
    ensures DownloadArtifact(sha256, disk.record, disk.file, disk.record.strongEtag, t).0.file
            == content(disk.record.strongEtag.value)
    ensures |content(disk.record.strongEtag.value)| == wanted.sizeBytes
  {
    RangeKeepsTrust(content, disk, wanted, t);
    var after := DiskAfter(disk.record, disk.file, disk.record.strongEtag, t);
    assert after.file[..|after.file|] == after.file;
    var all := content(disk.record.strongEtag.value);
    assert all[..|all|] == all;
  }

  // ---------- Runs ----------

  datatype Attempt = Attempt(ranged: Transfer, full: Transfer)

  // Attempts at one release until one promotes it.
  function After(sha256: seq<Byte> -> string, wanted: Identity, disk: Disk, attempts: seq<Attempt>): Acquired
    decreases |attempts|
  {
    if attempts == [] then Acquired(disk, Err(Interrupted))
    else
      var a := AcquireArtifact(sha256, wanted, disk, attempts[0].ranged, attempts[0].full);
      if a.outcome.Ok? || |attempts| == 1 then a else After(sha256, wanted, a.disk, attempts[1..])
  }

  predicate AllHonest(
    sha256: seq<Byte> -> string, content: string -> seq<Byte>, wanted: Identity, disk: Disk, attempts: seq<Attempt>)
    decreases |attempts|
  {
    attempts == []
    || (var a := AcquireArtifact(sha256, wanted, disk, attempts[0].ranged, attempts[0].full);
        && Honest(content, disk, wanted, attempts[0].ranged, attempts[0].full)
        && AllHonest(sha256, content, wanted, a.disk, attempts[1..]))
  }

  // Over any number of broken transfers and crashes, what the record counts is a beginning of
  // the content of its tag, and what is promoted has the signed size and checksum.
  lemma {:induction false} EveryRunIsTrustworthy(
    sha256: seq<Byte> -> string, content: string -> seq<Byte>, wanted: Identity, disk: Disk, attempts: seq<Attempt>)
    requires Trustworthy(content, disk) && AllHonest(sha256, content, wanted, disk, attempts)
    ensures var a := After(sha256, wanted, disk, attempts);
            Trustworthy(content, a.disk) && IsSigned(sha256, wanted, a)
    decreases |attempts|
  {
    if attempts != [] {
      AcquisitionKeepsTrust(sha256, content, wanted, disk, attempts[0].ranged, attempts[0].full);
      var a := AcquireArtifact(sha256, wanted, disk, attempts[0].ranged, attempts[0].full);
      if !a.outcome.Ok? && |attempts| > 1 {
        EveryRunIsTrustworthy(sha256, content, wanted, a.disk, attempts[1..]);
      }
    }
  }

  // That much holds whatever the server sends.
  lemma {:induction false} OnlySignedIsPromoted(sha256: seq<Byte> -> string, wanted: Identity, disk: Disk, attempts: seq<Attempt>)
    ensures IsSigned(sha256, wanted, After(sha256, wanted, disk, attempts))
    decreases |attempts|
  {
    if attempts != [] {
      var a := AcquireArtifact(sha256, wanted, disk, attempts[0].ranged, attempts[0].full);
      assert IsSigned(sha256, wanted, a);
      if !a.outcome.Ok? && |attempts| > 1 {
        OnlySignedIsPromoted(sha256, wanted, a.disk, attempts[1..]);
      }
    }
  }
}
