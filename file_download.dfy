/**
 * `downloadFile`: a conditional GET of one file, streamed into a `.tmp`
 * sibling and renamed onto the destination, retried a bounded number of times.
 * The file system is a map from path to content; what the network and the
 * disk do on each attempt is given as `replies`, indexed by attempt number
 * (0 for the first attempt).
 */
module FileDownload {
  import opened SyncCommon

  /** The loop runs while `attemptCount++ <= 2`: at most three attempts. */
  const MaxAttempts: nat := 3

  /** `new File(dest.getParentFile(), dest.getName() + ".tmp")`. */
  function TempPath(dest: Path): Path
  {
    dest + ".tmp"
  }

  /** How reading the response body into the temp file ends. */
  datatype BodyRead =
    | Complete(body: Bytes)
      /** The body broke off (or the temp file could not be written) after `partial`. */
    | BrokenAfter(partial: Bytes, error: SyncError)

  /** One attempt as the environment plays it: the reply, and what `renameTo` returns. */
  datatype AttemptReply = AttemptReply(reply: Reply<BodyRead>, renamed: bool)

  /** How one attempt ends. */
  datatype AttemptEnd = NotModified | Committed | RenameRefused | Threw(error: SyncError)

  /** Whether both file systems hold the same thing (or nothing) at `p`. */
  predicate Agree(fs1: FileSystem, fs2: FileSystem, p: Path)
  {
    (p in fs1 <==> p in fs2) && (p in fs1 ==> fs1[p] == fs2[p])
  }

  /** The ending of one attempt, given the environment's behaviour. */
  function EndOf(a: AttemptReply): AttemptEnd
  {
    match Execute(a.reply, SC_OK_SC_NOT_MODIFIED)
    case Failure(e) => Threw(e)
    case Success(response) =>
      if response.status == SC_NOT_MODIFIED then NotModified
      else match response.body
        case BrokenAfter(_, e) => Threw(e)
        case Complete(_) => if a.renamed then Committed else RenameRefused
  }

  /**
   * The file system after one attempt: the temp file is gone whenever the
   * body was read (it is renamed or deleted), and the destination changes
   * only by the rename of a completely read body.
   */
  function AfterAttempt(fs: FileSystem, dest: Path, a: AttemptReply): (fs': FileSystem)
    ensures forall p :: p != dest && p != TempPath(dest) ==> Agree(fs, fs', p)
    ensures EndOf(a) == Committed ==> dest in fs' && fs'[dest] == a.reply.response.body.body
    ensures EndOf(a) != Committed ==> Agree(fs, fs', dest)
    ensures EndOf(a) == NotModified || Execute(a.reply, SC_OK_SC_NOT_MODIFIED).Failure? ==> fs' == fs
    ensures TempPath(dest) in fs' ==> fs' == fs
  {
    var tmp := TempPath(dest);
    assert tmp != dest by { assert |tmp| != |dest|; }
    match Execute(a.reply, SC_OK_SC_NOT_MODIFIED)
    case Failure(_) => fs
    case Success(response) =>
      if response.status == SC_NOT_MODIFIED then fs
      else match response.body
        case BrokenAfter(_, _) => fs - {tmp}
        case Complete(body) => if a.renamed then (fs - {tmp})[dest := body] else fs - {tmp}
  }

  /** Where a download ends: the file system, the result, and how many attempts were made. */
  datatype DownloadEnd = DownloadEnd(fs: FileSystem, result: Outcome<SyncError>, attempts: nat)

  /**
   * The retry policy as a state machine, from attempt number `made` on: a
   * 304 or a commit ends with success; a refused rename tries again; an
   * exception is swallowed on the first attempt only; once three attempts
   * are used up the download ends normally.
   */
  function Retry(fs: FileSystem, dest: Path, replies: nat -> AttemptReply, made: nat): DownloadEnd
    decreases MaxAttempts - made
  {
    if made >= MaxAttempts then DownloadEnd(fs, Pass, made)
    else
      var fs' := AfterAttempt(fs, dest, replies(made));
      match EndOf(replies(made))
      case NotModified => DownloadEnd(fs', Pass, made + 1)
      case Committed => DownloadEnd(fs', Pass, made + 1)
      case RenameRefused => Retry(fs', dest, replies, made + 1)
      case Threw(e) => if made == 0 then Retry(fs', dest, replies, 1) else DownloadEnd(fs', Fail(e), made + 1)
  }

  /** An attempt that may be followed by another one: a refused rename, or an exception on attempt 0. */
  predicate Retriable(a: AttemptReply, k: nat)
  {
    EndOf(a) == RenameRefused || (k == 0 && EndOf(a).Threw?)
  }

  /** What the retry policy guarantees from attempt `made` on, by induction on the attempts left. */
  lemma {:induction false} RetryFrom(fs: FileSystem, dest: Path, replies: nat -> AttemptReply, made: nat)
    requires made <= MaxAttempts
    ensures var e := Retry(fs, dest, replies, made);
            && made <= e.attempts <= MaxAttempts
            && (made < MaxAttempts ==> made < e.attempts)
            && (forall k :: made <= k < e.attempts - 1 ==> Retriable(replies(k), k))
            && (e.attempts == made ==> e == DownloadEnd(fs, Pass, made))
            && (e.attempts > made ==>
                  var last := EndOf(replies(e.attempts - 1));
                  && (e.result.Fail? <==> e.attempts >= 2 && last.Threw?)
                  && (e.result.Fail? ==> e.result.error == last.error)
                  && (e.attempts < MaxAttempts && e.result.Pass? ==> last == NotModified || last == Committed)
                  && (last == Committed ==> dest in e.fs && e.fs[dest] == replies(e.attempts - 1).reply.response.body.body))
            && (forall p :: p != dest && p != TempPath(dest) ==> Agree(fs, e.fs, p))
            && (e.attempts == 0 || EndOf(replies(e.attempts - 1)) != Committed ==> Agree(fs, e.fs, dest))
            && (TempPath(dest) in e.fs ==> Agree(fs, e.fs, TempPath(dest)))
    decreases MaxAttempts - made
  {
    if made < MaxAttempts {
      var fs' := AfterAttempt(fs, dest, replies(made));
      match EndOf(replies(made))
      case NotModified =>
      case Committed =>
      case RenameRefused =>
        RetryFrom(fs', dest, replies, made + 1);
      case Threw(e) =>
        if made == 0 {
          RetryFrom(fs', dest, replies, 1);
        }
    }
  }

  /**
   * The source's promises about one `downloadFile` call: at most three
   * attempts; every attempt but the last was retriable; an exception
   * propagates only from the second or third attempt; a third attempt is made
   * only after the second one's rename was refused; the destination is either
   * untouched or holds the complete body of the last attempt; no temp file
   * written by this call is left behind (a temp file present at the end is a
   * pre-existing one, untouched); and nothing else in the file system changes.
   */
  lemma DownloadGuarantees(fs: FileSystem, dest: Path, replies: nat -> AttemptReply)
    ensures var e := Retry(fs, dest, replies, 0);
            && 1 <= e.attempts <= MaxAttempts
            && (forall k :: 0 <= k < e.attempts - 1 ==> Retriable(replies(k), k))
            && (e.result.Fail? <==> e.attempts >= 2 && EndOf(replies(e.attempts - 1)).Threw?)
            && (e.attempts == MaxAttempts ==> EndOf(replies(1)) == RenameRefused)
            && (Agree(fs, e.fs, dest) ||
                  (EndOf(replies(e.attempts - 1)) == Committed && dest in e.fs &&
                   e.fs[dest] == replies(e.attempts - 1).reply.response.body.body))
            && (TempPath(dest) in e.fs ==> Agree(fs, e.fs, TempPath(dest)))
            && (forall p :: p != dest && p != TempPath(dest) ==> Agree(fs, e.fs, p))
  {
    RetryFrom(fs, dest, replies, 0);
  }

  /** A 304 on the first attempt is a no-op: one request, success, nothing on disk changes. */
  lemma NotModifiedIsNoOp(fs: FileSystem, dest: Path, replies: nat -> AttemptReply)
    requires replies(0).reply.Responded? && replies(0).reply.response.status == SC_NOT_MODIFIED
    ensures Retry(fs, dest, replies, 0) == DownloadEnd(fs, Pass, 1)
  {
  }

  /**
   * When every rename is refused the loop runs out of attempts and the
   * download returns normally with the destination untouched.
   */
  lemma RefusedRenamesEndNormally(fs: FileSystem, dest: Path, replies: nat -> AttemptReply)
    requires forall k :: 0 <= k < MaxAttempts ==> EndOf(replies(k)) == RenameRefused
    ensures var e := Retry(fs, dest, replies, 0);
            e.attempts == MaxAttempts && e.result == Pass && Agree(fs, e.fs, dest)
            && TempPath(dest) !in e.fs
  {
    var tmp := TempPath(dest);
    var fs1 := AfterAttempt(fs, dest, replies(0));
    var fs2 := AfterAttempt(fs1, dest, replies(1));
    var fs3 := AfterAttempt(fs2, dest, replies(2));
    assert tmp !in fs3;
  }

  /**
   * `downloadFile`, following the source's loop: each attempt sends
   * `If-None-Match` with the destination's hash when the destination exists
   * (`hash` stands for the MD5 helper), and the method ends exactly as the
   * retry policy `Retry` says.
   */
  method DownloadFile(fs: FileSystem, dest: Path, hash: Bytes -> string, replies: nat -> AttemptReply)
    returns (fs': FileSystem, result: Outcome<SyncError>, conditions: seq<Option<string>>)
    ensures Retry(fs, dest, replies, 0) == DownloadEnd(fs', result, |conditions|)
    ensures forall i :: 0 <= i < |conditions| ==>
              conditions[i] == (if dest in fs then Some(hash(fs[dest])) else None)
  {
    var tmp := TempPath(dest);
    assert tmp != dest by { assert |tmp| != |dest|; }
    fs' := fs;
    result := Pass;
    conditions := [];
    var success := false;
    var attemptCount := 0;
    while !success && attemptCount <= 2
      invariant 0 <= attemptCount <= MaxAttempts
      invariant |conditions| == attemptCount
      invariant success ==> Retry(fs, dest, replies, 0) == DownloadEnd(fs', Pass, attemptCount)
      invariant !success ==> Retry(fs, dest, replies, 0) == Retry(fs', dest, replies, attemptCount)
      invariant !success ==> Agree(fs, fs', dest)
      invariant forall i :: 0 <= i < |conditions| ==>
                  conditions[i] == (if dest in fs then Some(hash(fs[dest])) else None)
    {
      var a := replies(attemptCount);
      ghost var before := fs';
      attemptCount := attemptCount + 1;
      var condition := if dest in fs' then Some(hash(fs'[dest])) else None;
      conditions := conditions + [condition];
      var executed := Execute(a.reply, SC_OK_SC_NOT_MODIFIED);
      if executed.Failure? {
        assert EndOf(a) == Threw(executed.error) && AfterAttempt(before, dest, a) == before;
        // the outer handler swallows the exception on the first attempt only
        if attemptCount != 1 {
          return fs', Fail(executed.error), conditions;
        }
      } else if executed.value.status == SC_NOT_MODIFIED {
        assert EndOf(a) == NotModified && AfterAttempt(before, dest, a) == before;
        return fs', Pass, conditions;
      } else {
        match executed.value.body
        case BrokenAfter(partial, e) =>
          fs' := fs'[tmp := partial];
          // finally: the temp file is deleted
          fs' := fs' - {tmp};
          assert fs' == before - {tmp};
          assert EndOf(a) == Threw(e) && AfterAttempt(before, dest, a) == fs';
          if attemptCount != 1 {
            return fs', Fail(e), conditions;
          }
        case Complete(body) =>
          fs' := fs'[tmp := body];
          success := a.renamed;
          if success {
            fs' := (fs' - {tmp})[dest := body];
            assert fs' == (before - {tmp})[dest := body];
          }
          // finally: the temp file is deleted if it still exists
          if tmp in fs' {
            fs' := fs' - {tmp};
            assert fs' == before - {tmp};
          }
          assert AfterAttempt(before, dest, a) == fs';
      }
    }
  }
}
