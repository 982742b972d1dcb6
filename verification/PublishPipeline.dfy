/** The multi-job publish of _publish_demo_ocr_flows.py: ordered effects that may stop anywhere. */
module PublishPipeline {
  import opened Text

  datatype Job = Job(flowId: string, workflow: string, version: string)

  /** A receipt as written to the job's file. */
  datatype Receipt = Receipt(flowId: string, version: string, versionId: string, checksum: string, status: string, workflow: string)

  /** `<flow id>/_publish_<version>.json` */
  datatype ReceiptFile = ReceiptFile(flowId: string, version: string)

  datatype Uploaded = Uploaded(versionId: string, checksum: string)

  /** The publish reply; an absent field is empty. */
  datatype PublishBody = PublishBody(version: string, versionId: string, checksum: string, status: string)

  /**
   * How the engine answers for one job: `None` where the call or its status check raises. A binding
   * reply counts as valid unless it says `valid: false`.
   */
  datatype Replies = Replies(built: bool, upload: Option<Uploaded>, validated: bool,
                             published: Option<PublishBody>, bindingValid: Option<bool>)

  datatype Event =
    | Built(job: nat)
    | UploadedVersion(job: nat, versionId: string)
    | Validated(job: nat, versionId: string)
    | Published(job: nat, versionId: string)
    | ReceiptWritten(job: nat, file: ReceiptFile, receipt: Receipt)
    | BindingValidated(job: nat)
    | CombinedWritten(receipts: seq<Receipt>)

  function OrElse(text: string, fallback: string): string {
    if text != "" then text else fallback
  }

  function ReceiptOf(job: Job, u: Uploaded, p: PublishBody): Receipt {
    Receipt(job.flowId, OrElse(p.version, job.version), OrElse(p.versionId, u.versionId),
            OrElse(p.checksum, u.checksum), p.status, job.workflow)
  }

  function FileOf(job: Job): ReceiptFile {
    ReceiptFile(job.flowId, job.version)
  }

  function JobReceipt(job: Job, r: Replies): Receipt
    requires r.upload.Some? && r.published.Some?
  {
    ReceiptOf(job, r.upload.value, r.published.value)
  }

  predicate AllWell(r: Replies) {
    r.built && r.upload.Some? && r.validated && r.published.Some? && r.bindingValid == Some(true)
  }

  /** The effects of one job whose calls all succeed. */
  function FullBlock(k: nat, job: Job, u: Uploaded, p: PublishBody): seq<Event> {
    [Built(k), UploadedVersion(k, u.versionId), Validated(k, u.versionId), Published(k, u.versionId),
     ReceiptWritten(k, FileOf(job), ReceiptOf(job, u, p)), BindingValidated(k)]
  }

  /** A disk of receipt files and a log of every effect, in order. */
  class Publisher {
    var log: seq<Event>
    var receiptFiles: map<ReceiptFile, Receipt>
    var combined: Option<seq<Receipt>>

    constructor ()
      ensures log == [] && receiptFiles == map[] && combined == None
    {
      log, receiptFiles, combined := [], map[], None;
    }

    /** One job; `false` when some step raises, which ends the whole run. */
    method PublishJob(k: nat, job: Job, r: Replies) returns (receipt: Option<Receipt>)
      modifies this
      ensures combined == old(combined)
      ensures log == old(log) + JobLog(k, job, r)
      ensures receipt.Some? <==> AllWell(r)
      ensures receipt.Some? ==> receipt.value == JobReceipt(job, r)
      ensures receiptFiles == old(receiptFiles) + Files(JobLog(k, job, r))
    {
      hide Files;
      JobFiles(k, job, r);
      if !r.built {
        return None;
      }
      log := log + [Built(k)];
      if r.upload.None? {
        return None;
      }
      var u := r.upload.value;
      log := log + [UploadedVersion(k, u.versionId)];
      if !r.validated {
        return None;
      }
      log := log + [Validated(k, u.versionId)];
      if r.published.None? {
        return None;
      }
      log := log + [Published(k, u.versionId)];
      var out := ReceiptOf(job, u, r.published.value);
      receiptFiles := receiptFiles[FileOf(job) := out];
      log := log + [ReceiptWritten(k, FileOf(job), out)];
      if r.bindingValid != Some(true) {
        return None;
      }
      log := log + [BindingValidated(k)];
      return Some(out);
    }

    /** The loop of `main`: jobs in order, until one raises. */
    method PublishJobs(jobs: seq<Job>, replies: seq<Replies>) returns (k: nat, results: seq<Receipt>)
      requires |replies| == |jobs|
      modifies this
      ensures k == FirstBad(replies) && results == AllReceipts(jobs, replies, k) && combined == old(combined)
      ensures var done := if k < |jobs| then RunLog(jobs, replies) else Blocks(jobs, replies, k);
        log == old(log) + done && receiptFiles == old(receiptFiles) + Files(done)
    {
      hide Files, JobLog;
      k, results := 0, [];
      NoFiles([]);
      while k < |jobs|
        invariant k <= FirstBad(replies)
        invariant log == old(log) + Blocks(jobs, replies, k)
        invariant receiptFiles == old(receiptFiles) + Files(Blocks(jobs, replies, k))
        invariant results == AllReceipts(jobs, replies, k) && combined == old(combined)
      {
        var receipt := PublishJob(k, jobs[k], replies[k]);
        Regroup(old(log), Blocks(jobs, replies, k), JobLog(k, jobs[k], replies[k]));
        Extended(old(receiptFiles), Blocks(jobs, replies, k), JobLog(k, jobs[k], replies[k]));
        if receipt.None? {
          StopsAt(jobs, replies, k);
          return;
        }
        k, results := k + 1, results + [receipt.value];
      }
    }

    /** `main`: all jobs in order, then the combined file. */
    method PublishAll(jobs: seq<Job>, replies: seq<Replies>) returns (ok: bool)
      requires |replies| == |jobs|
      modifies this
      ensures log == old(log) + RunLog(jobs, replies)
      ensures receiptFiles == old(receiptFiles) + Files(RunLog(jobs, replies))
      ensures ok <==> forall k :: 0 <= k < |jobs| ==> AllWell(replies[k])
      ensures combined == if ok then Some(AllReceipts(jobs, replies, |jobs|)) else old(combined)
    {
      var k, results := PublishJobs(jobs, replies);
      if k < |jobs| {
        return false;
      }
      CombinedAppended(old(log), old(receiptFiles), Blocks(jobs, replies, |jobs|), CombinedWritten(results));
      combined := Some(results);
      log := log + [CombinedWritten(results)];
      NeverStops(jobs, replies);
      return true;
    }
  }

  // ---------------------------------------------------------------- the log

  /** The effects of one job, cut at the first step that raises. */
  function JobLog(k: nat, job: Job, r: Replies): seq<Event> {
    if !r.built then []
    else if r.upload.None? then [Built(k)]
    else if !r.validated then [Built(k), UploadedVersion(k, r.upload.value.versionId)]
    else if r.published.None? then
      [Built(k), UploadedVersion(k, r.upload.value.versionId), Validated(k, r.upload.value.versionId)]
    else
      var all := FullBlock(k, job, r.upload.value, r.published.value);
      if r.bindingValid == Some(true) then all else all[..5]
  }

  /** The receipt files that a log leaves: the newest content of each. */
  function Files(log: seq<Event>): map<ReceiptFile, Receipt> {
    if log == [] then map[]
    else
      var e := log[|log| - 1];
      Files(log[..|log| - 1]) + if e.ReceiptWritten? then map[e.file := e.receipt] else map[]
  }

  lemma {:induction false} FilesAppend(a: seq<Event>, b: seq<Event>)
    ensures Files(a + b) == Files(a) + Files(b)
    decreases |b|
  {
    if b == [] {
      assert a + b == a;
    } else {
      var n := |b| - 1;
      FilesAppend(a, b[..n]);
      assert (a + b)[..|a + b| - 1] == a + b[..n] && (a + b)[|a + b| - 1] == b[n];
      MergeInOrder(Files(a), Files(b[..n]), if b[n].ReceiptWritten? then map[b[n].file := b[n].receipt] else map[]);
    }
  }

  lemma {:induction false} NoFiles(log: seq<Event>)
    requires forall i :: 0 <= i < |log| ==> !log[i].ReceiptWritten?
    ensures Files(log) == map[]
  {
    if log != [] {
      NoFiles(log[..|log| - 1]);
    }
  }

  /** One job leaves its receipt file exactly when it is built, uploaded, validated and published. */
  lemma JobFiles(k: nat, job: Job, r: Replies)
    ensures Files(JobLog(k, job, r))
         == if r.built && r.upload.Some? && r.validated && r.published.Some?
            then map[FileOf(job) := JobReceipt(job, r)] else map[]
  {
    var block := JobLog(k, job, r);
    if r.built && r.upload.Some? && r.validated && r.published.Some? {
      FilesAppend(block[..5], block[5..]);
      assert block[..5] + block[5..] == block;
      NoFiles(block[..4]);
      assert block[..5] == block[..4] + [block[4]];
      FilesAppend(block[..4], [block[4]]);
      assert [block[4]][..0] == [];
      NoFiles(block[5..]);
    } else {
      NoFiles(block);
    }
  }

  /** The whole blocks of the first `k` jobs. */
  function Blocks(jobs: seq<Job>, replies: seq<Replies>, k: nat): seq<Event>
    requires k <= |jobs| == |replies|
  {
    if k == 0 then [] else Blocks(jobs, replies, k - 1) + JobLog(k - 1, jobs[k - 1], replies[k - 1])
  }

  /** The receipts of the first `k` jobs. */
  function AllReceipts(jobs: seq<Job>, replies: seq<Replies>, k: nat): (r: seq<Receipt>)
    requires |jobs| == |replies| && k <= FirstBad(replies)
    ensures |r| == k
    ensures forall j :: 0 <= j < k ==> AllWell(replies[j]) && r[j] == JobReceipt(jobs[j], replies[j])
  {
    if k == 0 then []
    else
      assert AllWell(replies[k - 1]);
      AllReceipts(jobs, replies, k - 1) + [JobReceipt(jobs[k - 1], replies[k - 1])]
  }

  /** The first job that does not go well, or the number of jobs. */
  function FirstBad(replies: seq<Replies>): (k: nat)
    ensures k <= |replies| && (k < |replies| ==> !AllWell(replies[k]))
    ensures forall j :: 0 <= j < k ==> AllWell(replies[j])
  {
    if replies == [] || !AllWell(replies[0]) then 0 else 1 + FirstBad(replies[1..])
  }

  function RunLog(jobs: seq<Job>, replies: seq<Replies>): seq<Event>
    requires |jobs| == |replies|
  {
    var k := FirstBad(replies);
    if k == |jobs| then Blocks(jobs, replies, k) + [CombinedWritten(AllReceipts(jobs, replies, k))]
    else Blocks(jobs, replies, k) + JobLog(k, jobs[k], replies[k])
  }

  lemma MergeInOrder(a: map<ReceiptFile, Receipt>, b: map<ReceiptFile, Receipt>, c: map<ReceiptFile, Receipt>)
    ensures (a + b) + c == a + (b + c)
  {
  }

  lemma Regroup(a: seq<Event>, b: seq<Event>, c: seq<Event>)
    ensures (a + b) + c == a + (b + c)
  {
  }

  /** A log and the files it leaves grow together. */
  lemma Extended(files: map<ReceiptFile, Receipt>, log: seq<Event>, more: seq<Event>)
    ensures (files + Files(log)) + Files(more) == files + Files(log + more)
  {
    FilesAppend(log, more);
    MergeInOrder(files, Files(log), Files(more));
  }

  /** The last effect of a complete run writes no receipt file. */
  lemma CombinedAppended(base: seq<Event>, files: map<ReceiptFile, Receipt>, log: seq<Event>, e: Event)
    requires e.CombinedWritten?
    ensures (base + log) + [e] == base + (log + [e])
    ensures files + Files(log) == files + Files(log + [e])
  {
    assert (log + [e])[..|log|] == log;
  }

  lemma StopsAt(jobs: seq<Job>, replies: seq<Replies>, k: nat)
    requires k < |jobs| == |replies| && k <= FirstBad(replies) && !AllWell(replies[k])
    ensures FirstBad(replies) == k
    ensures RunLog(jobs, replies) == Blocks(jobs, replies, k) + JobLog(k, jobs[k], replies[k])
  {
    assert FirstBad(replies) == k;
  }

  lemma NeverStops(jobs: seq<Job>, replies: seq<Replies>)
    requires |jobs| == |replies| && forall j :: 0 <= j < |jobs| ==> AllWell(replies[j])
    ensures RunLog(jobs, replies) == Blocks(jobs, replies, |jobs|) + [CombinedWritten(AllReceipts(jobs, replies, |jobs|))]
  {
    assert FirstBad(replies) == |jobs|;
  }

  // ---------------------------------------------------------------- wherever it stops

  const STEPS := 6

  /** `e` is step `i` of job `j`, and all that this step needs has been answered. */
  ghost predicate IsStep(jobs: seq<Job>, replies: seq<Replies>, e: Event, j: nat, i: nat)
    requires j < |jobs| == |replies|
  {
    var r := replies[j];
    match e
    case Built(k) => k == j && i == 0 && r.built
    case UploadedVersion(k, v) => k == j && i == 1 && r.built && r.upload.Some? && v == r.upload.value.versionId
    case Validated(k, v) => k == j && i == 2 && r.validated && r.upload.Some? && v == r.upload.value.versionId
    case Published(k, v) => k == j && i == 3 && r.published.Some? && r.upload.Some? && v == r.upload.value.versionId
    case ReceiptWritten(k, file, out) => k == j && i == 4 && file == FileOf(jobs[j]) && r.upload.Some? && r.published.Some? && out == JobReceipt(jobs[j], r)
    case BindingValidated(k) => k == j && i == 5 && AllWell(r)
    case CombinedWritten(_) => false
  }

  lemma JobLogSteps(jobs: seq<Job>, replies: seq<Replies>, j: nat)
    requires j < |jobs| == |replies|
    ensures var block := JobLog(j, jobs[j], replies[j]);
      && |block| <= STEPS && (|block| == STEPS <==> AllWell(replies[j]))
      && forall i :: 0 <= i < |block| ==> IsStep(jobs, replies, block[i], j, i)
  {
  }

  lemma {:induction false} BlockSteps(jobs: seq<Job>, replies: seq<Replies>, k: nat, x: nat)
    requires k <= |jobs| == |replies| && forall j :: 0 <= j < k ==> AllWell(replies[j])
    ensures |Blocks(jobs, replies, k)| == STEPS * k
    ensures x < STEPS * k ==> IsStep(jobs, replies, Blocks(jobs, replies, k)[x], x / STEPS, x % STEPS)
    decreases k
  {
    hide JobLog, AllWell, IsStep;
    if k > 0 {
      BlockSteps(jobs, replies, k - 1, x);
      JobLogSteps(jobs, replies, k - 1);
    }
  }

  /** All calls up to step `i` of a job have been answered well; writing the receipt needs no answer of its own. */
  predicate Answered(r: Replies, i: nat) {
    && r.built && (i >= 1 ==> r.upload.Some?) && (i >= 2 ==> r.validated) && (i >= 3 ==> r.published.Some?)
    && (i >= 5 ==> r.bindingValid == Some(true))
  }

  /** A job goes exactly as far as it is answered. */
  lemma JobGoesAsFar(k: nat, job: Job, r: Replies)
    ensures |JobLog(k, job, r)| <= STEPS
    ensures forall i: nat :: i < STEPS ==> (i < |JobLog(k, job, r)| <==> Answered(r, i))
  {
  }

  /** How long the log of a complete run is: six steps for every job, and the combined file. */
  lemma CompleteRun(jobs: seq<Job>, replies: seq<Replies>)
    requires |jobs| == |replies| && forall j :: 0 <= j < |jobs| ==> AllWell(replies[j])
    ensures |RunLog(jobs, replies)| == STEPS * |jobs| + 1
  {
    hide JobLog, AllReceipts, AllWell;
    assert FirstBad(replies) == |jobs|;
    BlockSteps(jobs, replies, |jobs|, 0);
  }

  /** How long that of a run is which job `b` ends: six steps for every job before it, and what it did itself. */
  lemma EndedRun(jobs: seq<Job>, replies: seq<Replies>, b: nat)
    requires |jobs| == |replies| && b < |jobs| && !AllWell(replies[b]) && forall j :: 0 <= j < b ==> AllWell(replies[j])
    ensures |RunLog(jobs, replies)| == STEPS * b + |JobLog(b, jobs[b], replies[b])|
  {
    hide JobLog, AllReceipts, AllWell;
    assert FirstBad(replies) == b;
    BlockSteps(jobs, replies, b, 0);
  }

  ghost predicate WritesFile(log: seq<Event>, x: int, f: ReceiptFile) {
    0 <= x < |log| && log[x].ReceiptWritten? && log[x].file == f
  }

  /** The files that a log leaves are those that it writes. */
  lemma {:induction false} InFilesIff(log: seq<Event>, f: ReceiptFile)
    ensures f in Files(log) <==> exists x :: WritesFile(log, x, f)
  {
    if log != [] {
      var n := |log| - 1;
      InFilesIff(log[..n], f);
      if x :| WritesFile(log[..n], x, f) {
        assert WritesFile(log, x, f);
      }
      if x :| WritesFile(log, x, f) {
        assert x < n ==> WritesFile(log[..n], x, f);
      }
      assert log[n].ReceiptWritten? && log[n].file == f ==> WritesFile(log, n, f);
    }
  }

  /** Each holds the receipt that was written there last. */
  lemma {:induction false} NewestInFile(log: seq<Event>, x: nat)
    requires x < |log| && log[x].ReceiptWritten? && forall y :: x < y < |log| ==> !WritesFile(log, y, log[x].file)
    ensures log[x].file in Files(log) && Files(log)[log[x].file] == log[x].receipt
  {
    var n := |log| - 1;
    if x < n {
      forall y | x < y < n ensures !WritesFile(log[..n], y, log[x].file) {
        assert !WritesFile(log, y, log[x].file);
      }
      NewestInFile(log[..n], x);
      assert !WritesFile(log, n, log[x].file);
    }
  }

  /** The log of a run at any position: six steps per job in job order, then the combined file. */
  lemma LogSteps(jobs: seq<Job>, replies: seq<Replies>, x: nat)
    requires |jobs| == |replies| && x < |RunLog(jobs, replies)|
    ensures x / STEPS <= |jobs|
    ensures x / STEPS < |jobs| ==> IsStep(jobs, replies, RunLog(jobs, replies)[x], x / STEPS, x % STEPS)
    ensures x / STEPS == |jobs| ==>
      && x == STEPS * |jobs| && (forall j :: 0 <= j < |jobs| ==> AllWell(replies[j]))
      && RunLog(jobs, replies)[x] == CombinedWritten(AllReceipts(jobs, replies, |jobs|))
  {
    var k := FirstBad(replies);
    BlockSteps(jobs, replies, k, x);
    if k < |jobs| {
      JobLogSteps(jobs, replies, k);
    }
  }

  /**
   * A receipt in the log, wherever the run stops after it, follows the build of its job and the upload,
   * validation and publication of one version id, in that order and with nothing in between.
   * `ReceiptNames` says when the receipt names that id.
   */
  lemma ReceiptComesLast(jobs: seq<Job>, replies: seq<Replies>, x: nat)
    requires |jobs| == |replies| && x < |RunLog(jobs, replies)| && RunLog(jobs, replies)[x].ReceiptWritten?
    ensures var log := RunLog(jobs, replies);
      var j := log[x].job;
      && j < |jobs| && x == STEPS * j + 4 && replies[j].upload.Some? && replies[j].published.Some?
      && log[x].receipt == JobReceipt(jobs[j], replies[j]) && log[x].file == FileOf(jobs[j])
      && log[x - 4] == Built(j)
      && log[x - 3] == UploadedVersion(j, replies[j].upload.value.versionId)
      && log[x - 2] == Validated(j, replies[j].upload.value.versionId)
      && log[x - 1] == Published(j, replies[j].upload.value.versionId)
  {
    hide RunLog, AllReceipts;
    LogSteps(jobs, replies, x);
    var j := x / STEPS;
    LogStep(jobs, replies, j, 0);
    LogStep(jobs, replies, j, 1);
    LogStep(jobs, replies, j, 2);
    LogStep(jobs, replies, j, 3);
  }

  lemma LogStep(jobs: seq<Job>, replies: seq<Replies>, j: nat, i: nat)
    requires |jobs| == |replies| && j < |jobs| && i < STEPS && STEPS * j + i < |RunLog(jobs, replies)|
    ensures IsStep(jobs, replies, RunLog(jobs, replies)[STEPS * j + i], j, i)
  {
    assert (STEPS * j + i) / STEPS == j && (STEPS * j + i) % STEPS == i;
    LogSteps(jobs, replies, STEPS * j + i);
  }

  /** The job numbers of the receipts written in a log. */
  function ReceiptJobs(log: seq<Event>): seq<nat> {
    if log == [] then []
    else ReceiptJobs(log[..|log| - 1]) + if log[|log| - 1].ReceiptWritten? then [log[|log| - 1].job] else []
  }

  function FirstNumbers(m: nat): (r: seq<nat>)
    ensures |r| == m && forall i :: 0 <= i < m ==> r[i] == i
  {
    if m == 0 then [] else FirstNumbers(m - 1) + [m - 1]
  }

  /** Cut the run anywhere: the receipts written so far are those of the first jobs, one each, in order. */
  lemma {:induction false} ReceiptsArePrefix(jobs: seq<Job>, replies: seq<Replies>, n: nat)
    requires |jobs| == |replies| && n <= |RunLog(jobs, replies)|
    ensures ReceiptJobs(RunLog(jobs, replies)[..n]) == FirstNumbers((n + 1) / STEPS)
    ensures (n + 1) / STEPS <= |jobs|
  {
    hide RunLog, AllReceipts, AllWell;
    var log := RunLog(jobs, replies);
    if n > 0 {
      ReceiptsArePrefix(jobs, replies, n - 1);
      LogSteps(jobs, replies, n - 1);
      assert log[..n][..n - 1] == log[..n - 1];
      var j := (n - 1) / STEPS;
      if (n - 1) % STEPS == 4 {
        assert (n + 1) / STEPS == j + 1 && n / STEPS == j;
      } else {
        assert (n + 1) / STEPS == n / STEPS;
      }
    }
  }

  /** The combined file is the very last effect; by then every job has passed validate-binding. */
  lemma CombinedComesLast(jobs: seq<Job>, replies: seq<Replies>, x: nat)
    requires |jobs| == |replies| && x < |RunLog(jobs, replies)| && RunLog(jobs, replies)[x].CombinedWritten?
    ensures var log := RunLog(jobs, replies);
      && x == |log| - 1 == STEPS * |jobs|
      && |log[x].receipts| == |jobs|
      && forall j :: 0 <= j < |jobs| ==>
           && AllWell(replies[j]) && log[x].receipts[j] == JobReceipt(jobs[j], replies[j])
           && log[STEPS * j + 4] == ReceiptWritten(j, FileOf(jobs[j]), log[x].receipts[j])
           && log[STEPS * j + 5] == BindingValidated(j)
  {
    hide RunLog;
    var log := RunLog(jobs, replies);
    LogSteps(jobs, replies, x);
    LogSteps(jobs, replies, |log| - 1);
    forall j | 0 <= j < |jobs|
      ensures AllWell(replies[j]) && log[x].receipts[j] == JobReceipt(jobs[j], replies[j])
      ensures log[STEPS * j + 4] == ReceiptWritten(j, FileOf(jobs[j]), log[x].receipts[j]) && log[STEPS * j + 5] == BindingValidated(j)
    {
      LogStep(jobs, replies, j, 4);
      LogStep(jobs, replies, j, 5);
    }
  }

  // ---------------------------------------------------------------- what a receipt names

  /** The publish reply leaves the field empty, or repeats what is there already. */
  predicate Agrees(reply: string, known: string) {
    reply == "" || reply == known
  }

  /**
   * A receipt names the version id that was uploaded, validated and published just before it if and only if
   * the publish reply gives no id or that one; otherwise it names the id of the reply. So too for the
   * checksum of the upload, and for the version of the job, after which the receipt's file is named.
   */
  lemma ReceiptNames(jobs: seq<Job>, replies: seq<Replies>, x: nat)
    requires |jobs| == |replies| && x < |RunLog(jobs, replies)| && RunLog(jobs, replies)[x].ReceiptWritten?
    ensures var log := RunLog(jobs, replies);
      var j := log[x].job;
      && x >= 4 && j < |jobs| && replies[j].upload.Some? && replies[j].published.Some?
      && log[x - 3].UploadedVersion? && log[x - 2].Validated? && log[x - 1].Published?
      && log[x - 3].versionId == log[x - 2].versionId == log[x - 1].versionId == replies[j].upload.value.versionId
      && var r, u, p := log[x].receipt, replies[j].upload.value, replies[j].published.value;
         && (r.versionId == log[x - 1].versionId <==> Agrees(p.versionId, u.versionId))
         && (r.versionId != log[x - 1].versionId ==> r.versionId == p.versionId)
         && (r.checksum == u.checksum <==> Agrees(p.checksum, u.checksum))
         && (r.checksum != u.checksum ==> r.checksum == p.checksum)
         && (r.version == log[x].file.version <==> Agrees(p.version, jobs[j].version))
         && (r.version != log[x].file.version ==> r.version == p.version)
         && log[x].file.version == jobs[j].version
         && r.flowId == log[x].file.flowId == jobs[j].flowId && r.workflow == jobs[j].workflow && r.status == p.status
  {
    hide RunLog, AllReceipts;
    ReceiptComesLast(jobs, replies, x);
  }

  /** The same for every entry of the combined file, against the log of its own job. */
  lemma CombinedNames(jobs: seq<Job>, replies: seq<Replies>, x: nat, j: nat)
    requires |jobs| == |replies| && x < |RunLog(jobs, replies)| && RunLog(jobs, replies)[x].CombinedWritten?
    requires j < |jobs|
    ensures var log := RunLog(jobs, replies);
      && x == STEPS * |jobs| && |log[x].receipts| == |jobs| && AllWell(replies[j])
      && log[STEPS * j + 1].UploadedVersion? && log[STEPS * j + 2].Validated? && log[STEPS * j + 3].Published?
      && log[STEPS * j + 1].versionId == log[STEPS * j + 2].versionId == log[STEPS * j + 3].versionId
      && var r, u, p := log[x].receipts[j], replies[j].upload.value, replies[j].published.value;
         && (r.versionId == log[STEPS * j + 3].versionId <==> Agrees(p.versionId, u.versionId))
         && (r.checksum == u.checksum <==> Agrees(p.checksum, u.checksum))
         && (r.version == jobs[j].version <==> Agrees(p.version, jobs[j].version))
  {
    hide RunLog, AllReceipts;
    CombinedComesLast(jobs, replies, x);
    var log := RunLog(jobs, replies);
    assert AllWell(replies[j]) && log[STEPS * j + 4] == ReceiptWritten(j, FileOf(jobs[j]), log[x].receipts[j]);
    ReceiptNames(jobs, replies, STEPS * j + 4);
  }

  /** The exception is real: a receipt may name an id that no step of the run has uploaded or validated. */
  lemma ReceiptNamesAnother()
    ensures var jobs := [Job("flow", "1.0.7", "code")];
      var replies := [Replies(true, Some(Uploaded("v1", "sum")), true, Some(PublishBody("", "v2", "", "PUBLISHED")), Some(true))];
      var log := RunLog(jobs, replies);
      && AllWell(replies[0]) && |log| == 7 && log[4].ReceiptWritten? && log[4].receipt.versionId == "v2"
      && log[6] == CombinedWritten([log[4].receipt])
      && forall i :: 0 <= i < |log| ==>
           && (log[i].UploadedVersion? ==> log[i].versionId == "v1")
           && (log[i].Validated? ==> log[i].versionId == "v1")
           && (log[i].Published? ==> log[i].versionId == "v1")
  {
    var jobs := [Job("flow", "1.0.7", "code")];
    var replies := [Replies(true, Some(Uploaded("v1", "sum")), true, Some(PublishBody("", "v2", "", "PUBLISHED")), Some(true))];
    assert FirstBad(replies) == 1;
    assert Blocks(jobs, replies, 0) == [] && Blocks(jobs, replies, 1) == JobLog(0, jobs[0], replies[0]);
    assert AllReceipts(jobs, replies, 1) == [JobReceipt(jobs[0], replies[0])];
  }
}
