/**
 * The bulk issuance page of app/admin/bulk/page.tsx: its state (the rows,
 * the progress percentage, the busy flag, the chosen image), the upload
 * handler that fills the rows from a CSV text, and `processBulk`, which
 * creates a badge and sends an email for every row, twenty rows at a time,
 * writing each outcome into its own row.
 *
 * The badge route, the email route and the image upload are parameters: the
 * reply each request gets, indexed by the row it serves.
 */
module BulkIssue {
  import opened Wrappers
  import opened Strings
  import opened Replies
  import opened CsvRows
  import BadgesApi
  import SendEmail

  const ChunkSize: nat := 20

  // ---------------------------------------------------------------------
  // Progress

  /** `Math.round(done / total * 100)`: the percentage with halves rounded up. */
  function Percent(done: nat, total: nat): (p: nat)
    requires 0 < total && done <= total
    ensures p <= 100
    ensures done == total ==> p == 100
    ensures 2 * total * p <= 200 * done + total < 2 * total * (p + 1)
  {
    var x, m := 200 * done + total, 2 * total;
    DivBounds(x, m);
    PercentBounds(done, total, x / m);
    x / m
  }

  /** Integer division rounds down. */
  lemma DivBounds(x: nat, m: nat)
    requires m > 0
    ensures m * (x / m) <= x < m * (x / m + 1)
  {
    assert x == m * (x / m) + x % m;
  }

  /** A rounded percentage of at most the whole is at most 100, and exactly 100 for the whole. */
  lemma PercentBounds(done: nat, total: nat, q: nat)
    requires 0 < total && done <= total
    requires 2 * total * q <= 200 * done + total < 2 * total * (q + 1)
    ensures q <= 100 && (done == total ==> q == 100)
  {
    assert 2 * total * 101 == 202 * total;
    MulCancel(2 * total, q, 101);
    if done == total {
      assert 2 * total * 100 == 200 * total;
      MulCancel(2 * total, 100, q + 1);
    }
  }

  /** Rounding is monotone: more rows done never shows a smaller percentage. */
  lemma PercentMonotone(a: nat, b: nat, total: nat)
    requires 0 < total && a <= b <= total
    ensures Percent(a, total) <= Percent(b, total)
  {
    var pa, pb := Percent(a, total), Percent(b, total);
    assert 2 * total * pa < 2 * total * (pb + 1);
    MulCancel(2 * total, pa, pb + 1);
  }

  lemma MulCancel(m: nat, x: nat, y: nat)
    requires m * x < m * y
    ensures x < y
  {
  }

  /** The end of the chunk that starts at `start`. */
  function ChunkEnd(start: nat, total: nat): (e: nat)
    ensures e <= total && (start < total ==> start < e)
    ensures e == start + ChunkSize || (e == total && total <= start + ChunkSize)
  {
    if start + ChunkSize < total then start + ChunkSize else total
  }

  /** How many chunks `total` rows make. */
  function Chunks(total: nat): nat {
    (total + ChunkSize - 1) / ChunkSize
  }

  /** The percentages shown, one after each chunk. */
  function ProgressTrace(total: nat): (t: seq<nat>)
    ensures |t| == Chunks(total)
    ensures forall c :: 0 <= c < |t| ==> t[c] <= 100
    ensures total > 0 ==> t != []
  {
    seq(Chunks(total), c requires 0 <= c < Chunks(total) => Percent(ChunkEnd(ChunkSize * c, total), total))
  }

  /** The percentages never go down, and the last one is 100. */
  lemma ProgressTraceShape(total: nat)
    ensures forall a, b :: 0 <= a < b < |ProgressTrace(total)| ==> ProgressTrace(total)[a] <= ProgressTrace(total)[b]
    ensures total > 0 ==> |ProgressTrace(total)| > 0 && ProgressTrace(total)[|ProgressTrace(total)| - 1] == 100
  {
    var t := ProgressTrace(total);
    forall a, b | 0 <= a < b < |t| ensures t[a] <= t[b] {
      assert ChunkEnd(ChunkSize * a, total) <= ChunkEnd(ChunkSize * b, total);
      PercentMonotone(ChunkEnd(ChunkSize * a, total), ChunkEnd(ChunkSize * b, total), total);
    }
    if total > 0 {
      var last := Chunks(total) - 1;
      assert ChunkSize * last + ChunkSize >= total;
      assert ChunkEnd(ChunkSize * last, total) == total;
    }
  }

  /** Twenty-five rows show 80 and then 100. */
  lemma ProgressOf25()
    ensures ProgressTrace(25) == [80, 100]
  {
    assert Chunks(25) == 2;
    assert ChunkEnd(0, 25) == 20 && ChunkEnd(20, 25) == 25;
    assert Percent(20, 25) == 80;
  }

  // ---------------------------------------------------------------------
  // One row

  /** The badge request of a row (`badge_image_url` is dropped from the JSON when undefined). */
  function CreateBodyOf(r: BulkRequest, imageUrl: Option<string>): (b: BadgesApi.CreateBody)
    ensures b.user_email == Some(r.email) && b.badge_name == Some(r.badge_name) && b.event_name == Some(r.event_name)
    ensures b.badge_description == Some(r.description) && b.credential_id == Some(r.credential_id)
    ensures b.badge_image_url == imageUrl
  {
    BadgesApi.CreateBody(Some(r.email), Some(r.badge_name), Some(r.description), Some(r.event_name),
                         imageUrl, Some(r.credential_id))
  }

  /** The email request of a row: no link, `is_new_user` and `badge_id` copied from the badge reply. */
  function MailBodyOf(r: BulkRequest, requiresRegistration: Option<bool>, badgeId: Option<string>): SendEmail.EmailBody {
    SendEmail.EmailBody(Some(r.email), Some(r.badge_name), Some(r.event_name), None, requiresRegistration, badgeId)
  }

  /** Whether the badge reply lets the row go on to the email. */
  predicate Created(created: CreateReply) {
    created.CreateAnswer? && created.ok
  }

  /**
   * What a row becomes once its requests are answered: only status and
   * message change. A rejected request or a badge reply that is not ok makes
   * it an error carrying the message; otherwise it succeeds whatever the
   * email route answered, and its message becomes 'Pending Registration' only
   * when the badge reply says registration is required.
   */
  function Settle(r: BulkRequest, created: CreateReply, mailed: MailReply): (s: BulkRequest)
    ensures s.(status := r.status, message := r.message) == r
    ensures s.status == Success <==> Created(created) && mailed.MailAnswer?
    ensures s.status != Success ==> s.status == Error
    ensures s.status == Success ==>
      s.message == (if created.requiresRegistration == Some(true) then Some("Pending Registration") else r.message)
    ensures created.CreateRejected? ==> s.message == Some(created.reason)
    ensures created.CreateAnswer? && !created.ok ==>
      s.message == Some(if Truthy(created.message) then created.message.value else created.error.GetOr(""))
    ensures Created(created) && mailed.MailRejected? ==> s.message == Some(mailed.reason)
  {
    match created
    case CreateRejected(reason) => r.(status := Error, message := Some(reason))
    case CreateAnswer(ok, message, error, requiresRegistration, _) =>
      if !ok then r.(status := Error, message := Some(OrElse(message, error.GetOr(""))))
      else
        match mailed
        case MailRejected(reason) => r.(status := Error, message := Some(reason))
        case MailAnswer(_) =>
          r.(status := Success,
             message := if requiresRegistration == Some(true) then Some("Pending Registration") else r.message)
  }

  /** The email route's answer is never looked at, only whether the request was rejected. */
  lemma MailAnswerIgnored(r: BulkRequest, created: CreateReply)
    ensures Settle(r, created, MailAnswer(true)) == Settle(r, created, MailAnswer(false))
  {
  }

  /**
   * The functional update `prev => prev.map(...)` that row `j`'s requests
   * end in: `server` and `mailer` answer the requests sent for the row `r`
   * read at the start of the chunk, and the update settles whatever row it
   * finds at index `j`.
   */
  function RowUpdate(j: nat, r: BulkRequest, url: Option<string>,
                     server: (nat, BadgesApi.CreateBody) -> CreateReply,
                     mailer: (nat, SendEmail.EmailBody) -> MailReply): BulkRequest -> BulkRequest
  {
    var created := server(j, CreateBodyOf(r, url));
    var mailed := if Created(created) then mailer(j, MailBodyOf(r, created.requiresRegistration, created.badgeId))
                  else MailAnswer(false);
    cur => Settle(cur, created, mailed)
  }

  /** What row `j` becomes: its own update applied to it. */
  function Outcome(j: nat, r: BulkRequest, url: Option<string>,
                   server: (nat, BadgesApi.CreateBody) -> CreateReply,
                   mailer: (nat, SendEmail.EmailBody) -> MailReply): BulkRequest
  {
    RowUpdate(j, r, url, server, mailer)(r)
  }

  /** The updates one chunk's concurrent requests end in, one per row from `start` to `end - 1`. */
  function ChunkUpdates(snapshot: seq<BulkRequest>, start: nat, end: nat, url: Option<string>,
                        server: (nat, BadgesApi.CreateBody) -> CreateReply,
                        mailer: (nat, SendEmail.EmailBody) -> MailReply): (ups: seq<(nat, BulkRequest -> BulkRequest)>)
    requires start <= end <= |snapshot|
    ensures |ups| == end - start
    ensures forall a :: 0 <= a < |ups| ==> ups[a].0 == start + a
  {
    seq(end - start, a requires 0 <= a < end - start =>
      ((start + a) as nat, RowUpdate(start + a, snapshot[start + a], url, server, mailer)))
  }

  /**
   * However a chunk's updates land, rows `start` to `end - 1` become their
   * outcomes and every other row stays.
   */
  lemma ChunkUpdatesApplied(rows: seq<BulkRequest>, snapshot: seq<BulkRequest>, start: nat, end: nat,
                            ups: seq<(nat, BulkRequest -> BulkRequest)>, url: Option<string>,
                            server: (nat, BadgesApi.CreateBody) -> CreateReply,
                            mailer: (nat, SendEmail.EmailBody) -> MailReply)
    requires start <= end <= |snapshot| == |rows|
    requires forall k :: start <= k < end ==> rows[k] == snapshot[k]
    requires DistinctTargets(ups)
    requires forall x :: x in ups <==> x in ChunkUpdates(snapshot, start, end, url, server, mailer)
    ensures forall k :: 0 <= k < |rows| ==>
      ApplyUpdates(rows, ups)[k] == if start <= k < end then Outcome(k, snapshot[k], url, server, mailer) else rows[k]
  {
    var inOrder := ChunkUpdates(snapshot, start, end, url, server, mailer);
    assert DistinctTargets(inOrder);
    UpdateOrderIrrelevant(rows, ups, inOrder);
    UpdatesPointwise(rows, inOrder);
    forall k | 0 <= k < |rows|
      ensures ApplyUpdates(rows, inOrder)[k] == if start <= k < end then Outcome(k, snapshot[k], url, server, mailer) else rows[k]
    {
      if start <= k < end {
        var a := k - start;
        assert inOrder[a] == (k, RowUpdate(k, snapshot[k], url, server, mailer));
        assert ApplyUpdates(rows, inOrder)[k] == inOrder[a].1(rows[k]);
      } else {
        assert !Targeted(inOrder, k);
      }
    }
  }

  /** The image every row uses, or why there is none. */
  datatype ImageChoice = UseUrl(url: Option<string>) | UploadFailed(message: string)

  /** The typed URL, or the uploaded file's public URL when a file is chosen. */
  function ChooseImage(imageFile: Option<string>, imageUrl: string, upload: UploadReply): (c: ImageChoice)
    ensures imageFile.None? ==> c == UseUrl(Some(imageUrl))
    ensures imageFile.Some? && c.UseUrl? ==> upload.UploadAnswer? && upload.ok && c.url == upload.publicUrl
    ensures imageFile.Some? && upload.UploadAnswer? && upload.ok ==> c == UseUrl(upload.publicUrl)
    ensures imageFile.Some? && upload.UploadRejected? ==> c == UploadFailed(upload.reason)
    ensures imageFile.Some? && upload.UploadAnswer? && !upload.ok ==> c == UploadFailed("Failed to upload bulk image")
  {
    if imageFile.None? then UseUrl(Some(imageUrl))
    else
      match upload
      case UploadRejected(reason) => UploadFailed(reason)
      case UploadAnswer(ok, publicUrl, _) => if ok then UseUrl(publicUrl) else UploadFailed("Failed to upload bulk image")
  }

  // ---------------------------------------------------------------------
  // Concurrent row updates

  /**
   * The functional updates `prev => ...` of one chunk applied in the order
   * given: each replaces the row at its index by a function of that row.
   */
  function ApplyUpdates<T>(s: seq<T>, ups: seq<(nat, T -> T)>): (r: seq<T>)
    ensures |r| == |s|
    decreases |ups|
  {
    if ups == [] then s
    else
      var k := ups[0].0;
      ApplyUpdates(if k < |s| then s[k := ups[0].1(s[k])] else s, ups[1..])
  }

  ghost predicate DistinctTargets<T>(ups: seq<(nat, T -> T)>) {
    forall a, b :: 0 <= a < b < |ups| ==> ups[a].0 != ups[b].0
  }

  ghost predicate Targeted<T>(ups: seq<(nat, T -> T)>, k: nat) {
    exists a :: 0 <= a < |ups| && ups[a].0 == k
  }

  /** Updates of distinct rows: every row gets its own update applied to its old value, the rest stay. */
  lemma {:induction false} UpdatesPointwise<T>(s: seq<T>, ups: seq<(nat, T -> T)>)
    requires DistinctTargets(ups)
    ensures forall a :: 0 <= a < |ups| && ups[a].0 < |s| ==> ApplyUpdates(s, ups)[ups[a].0] == ups[a].1(s[ups[a].0])
    ensures forall k :: 0 <= k < |s| && !Targeted(ups, k) ==> ApplyUpdates(s, ups)[k] == s[k]
    decreases |ups|
  {
    if ups != [] {
      var k := ups[0].0;
      var s' := if k < |s| then s[k := ups[0].1(s[k])] else s;
      var rest := ups[1..];
      assert DistinctTargets(rest);
      UpdatesPointwise(s', rest);
      assert !Targeted(rest, k);
      forall k' | 0 <= k' < |s| && !Targeted(ups, k')
        ensures ApplyUpdates(s, ups)[k'] == s[k']
      {
        assert k' != k;
      }
      forall a | 0 <= a < |ups| && ups[a].0 < |s|
        ensures ApplyUpdates(s, ups)[ups[a].0] == ups[a].1(s[ups[a].0])
      {
        if a > 0 {
          assert rest[a - 1] == ups[a];
          assert ups[a].0 != k;
        }
      }
    }
  }

  /**
   * The updates of one chunk touch distinct rows, so the order in which the
   * concurrent requests finish does not change the rows they leave.
   */
  lemma UpdateOrderIrrelevant<T>(s: seq<T>, u1: seq<(nat, T -> T)>, u2: seq<(nat, T -> T)>)
    requires DistinctTargets(u1) && DistinctTargets(u2)
    requires forall x :: x in u1 <==> x in u2
    ensures ApplyUpdates(s, u1) == ApplyUpdates(s, u2)
  {
    UpdatesPointwise(s, u1);
    UpdatesPointwise(s, u2);
    var r1, r2 := ApplyUpdates(s, u1), ApplyUpdates(s, u2);
    forall k | 0 <= k < |s| ensures r1[k] == r2[k] {
      if Targeted(u1, k) {
        var a :| 0 <= a < |u1| && u1[a].0 == k;
        assert u1[a] in u2;
        var b :| 0 <= b < |u2| && u2[b] == u1[a];
        assert r1[k] == u1[a].1(s[k]);
        assert r2[k] == u2[b].1(s[k]);
      } else {
        assert !Targeted(u2, k) by {
          forall b | 0 <= b < |u2| ensures u2[b].0 != k {
            assert u2[b] in u1;
          }
        }
      }
    }
  }

  // ---------------------------------------------------------------------
  // The page

  /** `n` in decimal, as a template literal prints it. */
  function Decimal(n: nat): string {
    if n < 10 then [(48 + n) as char] else Decimal(n / 10) + [(48 + n % 10) as char]
  }

  /** One more line read by the upload handler's loop. */
  lemma RowsOfStep(rest: seq<string>, j: nat)
    requires j < |rest|
    ensures LineRow(rest[j]).Some? ==> RowsOf(rest[..j + 1]) == RowsOf(rest[..j]) + [LineRow(rest[j]).value]
    ensures LineRow(rest[j]).None? ==> RowsOf(rest[..j + 1]) == RowsOf(rest[..j])
  {
    var front := rest[..j + 1];
    assert front[..j] == rest[..j];
    assert RowsOf(front) == RowsOf(rest[..j]) + RowsOfLine(rest[j]);
  }

  /** One more chunk's percentage. */
  lemma TraceStep(total: nat, t: seq<nat>)
    requires |t| < Chunks(total) && t == ProgressTrace(total)[..|t|]
    ensures t + [Percent(ChunkEnd(ChunkSize * |t|, total), total)] == ProgressTrace(total)[..|t| + 1]
  {
  }

  /** Chunk `c` starts inside the list exactly when fewer than `Chunks(total)` chunks came before it. */
  lemma ChunkCount(c: nat, total: nat)
    requires ChunkSize * c < total
    ensures c < Chunks(total)
    ensures ChunkSize * (c + 1) >= total ==> c + 1 == Chunks(total)
  {
  }

  /** Appending a chunk's bodies to those of the rows before it gives the bodies of all rows up to the chunk's end. */
  lemma ExtendBodies(done: seq<BadgesApi.CreateBody>, sent: seq<BadgesApi.CreateBody>, snapshot: seq<BulkRequest>, url: Option<string>)
    requires |done| + |sent| <= |snapshot|
    requires forall k :: 0 <= k < |done| ==> done[k] == CreateBodyOf(snapshot[k], url)
    requires forall k :: 0 <= k < |sent| ==> sent[k] == CreateBodyOf(snapshot[|done| + k], url)
    ensures forall k :: 0 <= k < |done + sent| ==> (done + sent)[k] == CreateBodyOf(snapshot[k], url)
  {
  }

  /**
   * The reader's `onload` loop: the rows of every line after the header, in
   * line order. `rest[j]` is line `j + 1` of the text.
   */
  method ReadRows(text: string) returns (data: seq<BulkRequest>)
    ensures data == ParseText(text)
  {
    var rest := Split(text, '\n')[1..];
    data := [];
    var j := 0;
    while j < |rest|
      invariant j <= |rest|
      invariant data == RowsOf(rest[..j])
    {
      RowsOfStep(rest, j);
      match LineRow(rest[j]) {
        case Some(row) => data := data + [row];
        case None =>
      }
      j := j + 1;
    }
    assert rest[..j] == rest;
  }

  class BulkPage {
    var rows: seq<BulkRequest>
    var progress: nat
    var loading: bool
    /** The chosen image file, by name. */
    var imageFile: Option<string>
    /** The typed image URL. */
    var imageUrl: string

    constructor ()
      ensures rows == [] && progress == 0 && !loading && imageFile == None && imageUrl == ""
    {
      rows := [];
      progress := 0;
      loading := false;
      imageFile := None;
      imageUrl := "";
    }

    /**
     * The upload handler: every line after the header, trimmed, blank ones
     * skipped, parsed into a row when its first three columns are present.
     * When no row results the old rows stay; otherwise they are replaced.
     */
    method HandleFileUpload(text: string) returns (notice: Notice)
      modifies this
      ensures ParseText(text) == [] ==> rows == old(rows) && notice == ToastError("No valid data found in CSV")
      ensures ParseText(text) != [] ==>
        rows == ParseText(text) && notice == ToastSuccess("Loaded " + Decimal(|rows|) + " records!")
      ensures progress == old(progress) && loading == old(loading)
      ensures imageFile == old(imageFile) && imageUrl == old(imageUrl)
    {
      var data := ReadRows(text);
      if data == [] {
        notice := ToastError("No valid data found in CSV");
      } else {
        rows := data;
        notice := ToastSuccess("Loaded " + Decimal(|data|) + " records!");
      }
    }

    /**
     * One chunk, rows `start` to `end - 1`: each row's requests are sent and
     * the row is settled at its own index; no other row changes. The
     * concurrent requests are taken in index order (see
     * `UpdateOrderIrrelevant`).
     */
    method RunChunk(snapshot: seq<BulkRequest>, start: nat, end: nat, url: Option<string>,
                    server: (nat, BadgesApi.CreateBody) -> CreateReply,
                    mailer: (nat, SendEmail.EmailBody) -> MailReply)
      returns (sent: seq<BadgesApi.CreateBody>)
      requires start <= end <= |snapshot| == |rows|
      requires forall k :: start <= k < end ==> rows[k] == snapshot[k]
      modifies this
      ensures |rows| == |snapshot|
      ensures forall k :: 0 <= k < |rows| ==>
        rows[k] == if start <= k < end then Outcome(k, snapshot[k], url, server, mailer) else old(rows)[k]
      // the same rows as the chunk's functional updates give, in whatever order they land
      ensures forall ups: seq<(nat, BulkRequest -> BulkRequest)> ::
        DistinctTargets(ups) && (forall x :: x in ups <==> x in ChunkUpdates(snapshot, start, end, url, server, mailer)) ==>
        rows == ApplyUpdates(old(rows), ups)
      ensures |sent| == end - start
      ensures forall k :: 0 <= k < |sent| ==> sent[k] == CreateBodyOf(snapshot[start + k], url)
      ensures progress == old(progress) && loading == old(loading)
      ensures imageFile == old(imageFile) && imageUrl == old(imageUrl)
    {
      sent := [];
      var j := start;
      while j < end
        invariant start <= j <= end
        invariant |rows| == |snapshot|
        invariant forall k :: 0 <= k < |rows| ==>
          rows[k] == if start <= k < j then Outcome(k, snapshot[k], url, server, mailer) else old(rows)[k]
        invariant |sent| == j - start
        invariant forall k :: 0 <= k < |sent| ==> sent[k] == CreateBodyOf(snapshot[start + k], url)
        invariant progress == old(progress) && loading == old(loading)
        invariant imageFile == old(imageFile) && imageUrl == old(imageUrl)
      {
        var request := snapshot[j];
        var body := CreateBodyOf(request, url);
        sent := sent + [body];
        var created := server(j, body);
        var mailed := MailAnswer(false);
        if Created(created) {
          mailed := mailer(j, MailBodyOf(request, created.requiresRegistration, created.badgeId));
        }
        rows := rows[j := Settle(rows[j], created, mailed)];
        j := j + 1;
      }
      forall ups: seq<(nat, BulkRequest -> BulkRequest)> |
        DistinctTargets(ups) && (forall x :: x in ups <==> x in ChunkUpdates(snapshot, start, end, url, server, mailer))
        ensures rows == ApplyUpdates(old(rows), ups)
      {
        ChunkUpdatesApplied(old(rows), snapshot, start, end, ups, url, server, mailer);
      }
    }

    /**
     * The chunk loop: chunks start at 0, 20, 40, ...; every row is settled
     * once, at its own index, and the percentage is recomputed after each
     * chunk.
     */
    method RunChunks(url: Option<string>,
                     server: (nat, BadgesApi.CreateBody) -> CreateReply,
                     mailer: (nat, SendEmail.EmailBody) -> MailReply)
      returns (creates: seq<BadgesApi.CreateBody>, trace: seq<nat>)
      requires rows != []
      modifies this
      ensures |rows| == |old(rows)| == |creates|
      ensures forall j :: 0 <= j < |rows| ==> rows[j] == Outcome(j, old(rows)[j], url, server, mailer)
      ensures forall j :: 0 <= j < |creates| ==> creates[j] == CreateBodyOf(old(rows)[j], url)
      ensures trace == ProgressTrace(|rows|) && progress == 100
      ensures loading == old(loading) && imageFile == old(imageFile) && imageUrl == old(imageUrl)
    {
      creates, trace := [], [];
      var snapshot := rows;
      var n := |snapshot|;
      var i := 0;
      while i < n
        invariant i == ChunkSize * |trace| && |trace| <= Chunks(n)
        invariant i < n ==> |creates| == i
        invariant i >= n ==> |creates| == n && |trace| == Chunks(n)
        invariant |rows| == n
        invariant forall k :: 0 <= k < n ==>
          rows[k] == if k < |creates| then Outcome(k, snapshot[k], url, server, mailer) else snapshot[k]
        invariant forall k :: 0 <= k < |creates| ==> creates[k] == CreateBodyOf(snapshot[k], url)
        invariant trace == ProgressTrace(n)[..|trace|]
        invariant trace != [] ==> progress == trace[|trace| - 1]
        invariant loading == old(loading) && imageFile == old(imageFile) && imageUrl == old(imageUrl)
      {
        var end := ChunkEnd(i, n);
        ChunkCount(|trace|, n);
        var sent := RunChunk(snapshot, i, end, url, server, mailer);
        ExtendBodies(creates, sent, snapshot, url);
        creates := creates + sent;
        progress := Percent(end, n);
        TraceStep(n, trace);
        trace := trace + [progress];
        i := i + ChunkSize;
      }
      ProgressTraceShape(n);
    }

    /**
     * `processBulk`. With no rows nothing happens; with neither a file nor a
     * URL the administrator is alerted and nothing else happens. Otherwise the
     * image is settled first (a failed upload ends the run before any row is
     * sent), then every row is sent once, chunk by chunk, and the percentage is
     * updated after each chunk.
     */
    method ProcessBulk(upload: UploadReply,
                       server: (nat, BadgesApi.CreateBody) -> CreateReply,
                       mailer: (nat, SendEmail.EmailBody) -> MailReply)
      returns (creates: seq<BadgesApi.CreateBody>, trace: seq<nat>, notices: seq<Notice>)
      modifies this
      ensures imageFile == old(imageFile) && imageUrl == old(imageUrl)
      ensures old(rows) == [] ==>
        && rows == old(rows) && progress == old(progress) && loading == old(loading)
        && creates == [] && trace == [] && notices == []
      ensures old(rows) != [] && old(imageFile).None? && old(imageUrl) == "" ==>
        && rows == old(rows) && progress == old(progress) && loading == old(loading)
        && creates == [] && trace == [] && notices == [Alert, ToastError("Badge image is required.")]
      ensures old(rows) != [] && (old(imageFile).Some? || old(imageUrl) != "")
              && ChooseImage(old(imageFile), old(imageUrl), upload).UploadFailed? ==>
        && rows == old(rows) && progress == 0 && !loading && creates == [] && trace == []
        && notices == [ToastError(ChooseImage(old(imageFile), old(imageUrl), upload).message),
                       ToastSuccess("Bulk processing complete!")]
      ensures old(rows) != [] && (old(imageFile).Some? || old(imageUrl) != "")
              && ChooseImage(old(imageFile), old(imageUrl), upload).UseUrl? ==>
        var url := ChooseImage(old(imageFile), old(imageUrl), upload).url;
        && |rows| == |old(rows)| == |creates|
        && (forall j :: 0 <= j < |rows| ==> rows[j] == Outcome(j, old(rows)[j], url, server, mailer))
        && (forall j :: 0 <= j < |creates| ==> creates[j] == CreateBodyOf(old(rows)[j], url))
        && trace == ProgressTrace(|rows|) && progress == 100
        && !loading && notices == [ToastSuccess("Bulk processing complete!")]
    {
      creates, trace, notices := [], [], [];
      if |rows| == 0 {
        return;
      }
      if imageFile.None? && imageUrl == "" {
        notices := [Alert, ToastError("Badge image is required.")];
        return;
      }
      loading := true;
      progress := 0;
      var choice := ChooseImage(imageFile, imageUrl, upload);
      if choice.UploadFailed? {
        notices := [ToastError(choice.message)];
      } else {
        creates, trace := RunChunks(choice.url, server, mailer);
      }
      loading := false;
      notices := notices + [ToastSuccess("Bulk processing complete!")];
    }
  }
}
