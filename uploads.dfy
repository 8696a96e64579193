/** The upload list manager of the wizard's second stage: validation of a
    candidate file by declared MIME type and byte size, batch insertion into
    the ordered list of accepted files, removal by identifier and the choice
    of display unit for a byte count. */
module Uploads {
  import opened Wrappers

  /** What validation and insertion read of a browser `File`: its name, its
      size in bytes and its declared MIME type. */
  datatype Candidate = Candidate(name: string, size: nat, mime: string)

  /** An accepted upload, as listed by the component and handed to the
      wizard (the opaque file handle it also carries is never read). */
  datatype UploadedFile = UploadedFile(id: string, name: string, size: nat, mime: string)

  const PdfType: string := "application/pdf"
  const DocxType: string := "application/vnd.openxmlformats-officedocument.wordprocessingml.document"
  const PptxType: string := "application/vnd.openxmlformats-officedocument.presentationml.presentation"

  /** The allow-list of MIME types, each with the extension it stands for. */
  const AcceptedTypes: map<string, string> := map[PdfType := ".pdf", DocxType := ".docx", PptxType := ".pptx"]

  /** The size ceiling: 10 MiB. */
  const MaxFileSize: nat := 10 * 1024 * 1024

  /** The two reasons a candidate is refused. */
  datatype UploadError = UnsupportedType | FileTooLarge

  /** The user-visible text of each refusal. */
  function ErrorMessage(e: UploadError): string {
    match e
    case UnsupportedType => "Type de fichier non supporté. Utilisez PDF, DOCX ou PPTX."
    case FileTooLarge => "Fichier trop volumineux. Taille maximale: 10MB."
  }

  /** The allow-list holds exactly the three office formats, and the ceiling
      is 10,485,760 bytes. */
  lemma AcceptedTypesAndCeiling()
    ensures AcceptedTypes.Keys == {PdfType, DocxType, PptxType}
    ensures |AcceptedTypes.Keys| == 3
    ensures AcceptedTypes[PdfType] == ".pdf" && AcceptedTypes[DocxType] == ".docx"
    ensures AcceptedTypes[PptxType] == ".pptx"
    ensures MaxFileSize == 10485760
  {
  }

  /** `validateFile`: the type is checked before the size; `None` means the
      candidate passes. */
  function ValidateFile(c: Candidate): (r: Option<UploadError>)
    ensures r == Some(UnsupportedType) <==> c.mime !in AcceptedTypes
    ensures r == Some(FileTooLarge) <==> c.mime in AcceptedTypes && c.size > MaxFileSize
    ensures r == None <==> c.mime in AcceptedTypes && c.size <= MaxFileSize
  {
    if c.mime !in AcceptedTypes then Some(UnsupportedType)
    else if c.size > MaxFileSize then Some(FileTooLarge)
    else None
  }

  /** A file of the wrong type reports only the type error, however large it
      is. */
  lemma TypeCheckedFirst(c: Candidate)
    requires c.mime !in AcceptedTypes && c.size > MaxFileSize
    ensures ValidateFile(c) == Some(UnsupportedType)
  {
  }

  /** The ceiling is inclusive: a PDF of exactly 10 MiB passes, one byte more
      does not. */
  lemma CeilingInclusive(name: string)
    ensures ValidateFile(Candidate(name, 10485760, PdfType)) == None
    ensures ValidateFile(Candidate(name, 10485761, PdfType)) == Some(FileTooLarge)
  {
  }

  /** Some entry of `files` already carries `name` (the `files.find` test). */
  predicate NameTaken(files: seq<UploadedFile>, name: string) {
    exists i :: 0 <= i < |files| && files[i].name == name
  }

  /** No two entries share an identifier. */
  predicate UniqueIds(files: seq<UploadedFile>) {
    forall i, j :: 0 <= i < j < |files| ==> files[i].id != files[j].id
  }

  /** The identifiers offered for a batch are pairwise distinct and unused
      by `files` (the model's stand-in for `Date.now()` plus a random
      suffix). */
  predicate FreshIds(files: seq<UploadedFile>, ids: seq<string>) {
    && (forall i, j :: 0 <= i < j < |ids| ==> ids[i] != ids[j])
    && (forall i, k :: 0 <= i < |ids| && 0 <= k < |files| ==> ids[i] != files[k].id)
  }

  /** The error line reported for a refused candidate: `name: message`. */
  function ErrorLine(c: Candidate, e: UploadError): string {
    c.name + ": " + ErrorMessage(e)
  }

  /** An error line starts with the file's name and `: `, and this prefix
      followed by the message tells the two refusals apart. */
  lemma ErrorLineDeterminesError(c: Candidate, e1: UploadError, e2: UploadError)
    ensures ErrorLine(c, e1)[..|c.name| + 2] == c.name + ": "
    ensures ErrorLine(c, e1) == ErrorLine(c, e2) <==> e1 == e2
  {
    var n := |c.name| + 2;
    assert ErrorLine(c, e1)[..n] == c.name + ": ";
    if e1 != e2 {
      assert ErrorLine(c, e1)[n] == ErrorMessage(e1)[0];
      assert ErrorLine(c, e2)[n] == ErrorMessage(e2)[0];
    }
  }

  /** The list entry made for an accepted candidate. */
  function Entry(c: Candidate, id: string): UploadedFile {
    UploadedFile(id, c.name, c.size, c.mime)
  }

  /** What happens to one candidate of a batch, given the list as it was
      before the batch. */
  datatype Disposition = Rejected(error: UploadError) | Skipped | Added

  function Classify(files: seq<UploadedFile>, c: Candidate): (r: Disposition)
    ensures r.Rejected? <==> ValidateFile(c).Some?
    ensures r.Rejected? ==> ValidateFile(c) == Some(r.error)
    ensures r == Skipped <==> ValidateFile(c) == None && NameTaken(files, c.name)
    ensures r == Added <==> ValidateFile(c) == None && !NameTaken(files, c.name)
  {
    match ValidateFile(c)
    case Some(e) => Rejected(e)
    case None => if NameTaken(files, c.name) then Skipped else Added
  }

  /** The error lines of a batch, in batch order. They depend on the batch
      alone: the list is not consulted before a file is refused. */
  function BatchErrors(batch: seq<Candidate>): seq<string>
    decreases |batch|
  {
    if batch == [] then []
    else
      var c := batch[|batch| - 1];
      BatchErrors(batch[..|batch| - 1]) + match ValidateFile(c) {
        case Some(e) => [ErrorLine(c, e)]
        case None => []
      }
  }

  /** The entries a batch adds to `files`, in batch order: the candidate at
      position k, if added, gets identifier `ids[k]`. Duplicates are looked
      up in `files`, the list as it was before the batch. */
  function BatchAccepted(files: seq<UploadedFile>, batch: seq<Candidate>, ids: seq<string>): seq<UploadedFile>
    requires |ids| == |batch|
    decreases |batch|
  {
    if batch == [] then []
    else
      var n := |batch| - 1;
      BatchAccepted(files, batch[..n], ids[..n])
        + if Classify(files, batch[n]) == Added then [Entry(batch[n], ids[n])] else []
  }

  /** The number of valid candidates skipped because their name is taken. */
  function SkippedCount(files: seq<UploadedFile>, batch: seq<Candidate>): nat
    decreases |batch|
  {
    if batch == [] then 0
    else
      var n := |batch| - 1;
      SkippedCount(files, batch[..n]) + if Classify(files, batch[n]) == Skipped then 1 else 0
  }

  /** Error reporting distributes over splitting a batch: the errors of the
      first part come first, in order. */
  lemma {:induction false} BatchErrorsAppend(b1: seq<Candidate>, b2: seq<Candidate>)
    ensures BatchErrors(b1 + b2) == BatchErrors(b1) + BatchErrors(b2)
    decreases |b2|
  {
    if b2 == [] {
      assert b1 + b2 == b1;
    } else {
      var n := |b2| - 1;
      assert (b1 + b2)[..|b1 + b2| - 1] == b1 + b2[..n];
      assert (b1 + b2)[|b1 + b2| - 1] == b2[n];
      BatchErrorsAppend(b1, b2[..n]);
    }
  }

  /** Insertion distributes over splitting a batch: accepted files keep their
      batch order. */
  lemma {:induction false} BatchAcceptedAppend(files: seq<UploadedFile>, b1: seq<Candidate>, i1: seq<string>,
                                               b2: seq<Candidate>, i2: seq<string>)
    requires |i1| == |b1| && |i2| == |b2|
    ensures BatchAccepted(files, b1 + b2, i1 + i2)
         == BatchAccepted(files, b1, i1) + BatchAccepted(files, b2, i2)
    decreases |b2|
  {
    if b2 == [] {
      assert b1 + b2 == b1;
      assert i1 + i2 == i1;
    } else {
      var n := |b2| - 1;
      assert (b1 + b2)[..|b1 + b2| - 1] == b1 + b2[..n];
      assert (i1 + i2)[..|i1 + i2| - 1] == i1 + i2[..n];
      assert (b1 + b2)[|b1 + b2| - 1] == b2[n];
      assert (i1 + i2)[|i1 + i2| - 1] == i2[n];
      BatchAcceptedAppend(files, b1, i1, b2[..n], i2[..n]);
    }
  }

  /** Each refused candidate contributes its `name: message` line. */
  lemma {:induction false} RefusalReported(batch: seq<Candidate>, k: nat)
    requires k < |batch| && ValidateFile(batch[k]).Some?
    ensures ErrorLine(batch[k], ValidateFile(batch[k]).value) in BatchErrors(batch)
    decreases |batch|
  {
    var n := |batch| - 1;
    if k < n {
      assert batch[..n][k] == batch[k];
      RefusalReported(batch[..n], k);
    }
  }

  /** Every error line is the line of some refused candidate of the batch. */
  lemma {:induction false} ReportedIsRefusal(batch: seq<Candidate>, line: string)
    requires line in BatchErrors(batch)
    ensures exists k :: 0 <= k < |batch| && ValidateFile(batch[k]).Some?
                        && line == ErrorLine(batch[k], ValidateFile(batch[k]).value)
    decreases |batch|
  {
    var n := |batch| - 1;
    var pre := batch[..n];
    if line in BatchErrors(pre) {
      ReportedIsRefusal(pre, line);
      var k :| 0 <= k < |pre| && ValidateFile(pre[k]).Some?
               && line == ErrorLine(pre[k], ValidateFile(pre[k]).value);
      assert batch[k] == pre[k];
    } else {
      assert ValidateFile(batch[n]).Some? && line == ErrorLine(batch[n], ValidateFile(batch[n]).value);
    }
  }

  /** There are never more error lines than candidates. */
  lemma {:induction false} BatchErrorsBounded(batch: seq<Candidate>)
    ensures |BatchErrors(batch)| <= |batch|
    decreases |batch|
  {
    if batch != [] {
      BatchErrorsBounded(batch[..|batch| - 1]);
    }
  }

  /** A file is added exactly when it is valid and its name is absent from
      the list as it stood before the batch; it is added with the identifier
      offered at its position. */
  lemma {:induction false} BatchAcceptedExactly(files: seq<UploadedFile>, batch: seq<Candidate>, ids: seq<string>)
    requires |ids| == |batch|
    ensures |BatchAccepted(files, batch, ids)| <= |batch|
    ensures forall f :: f in BatchAccepted(files, batch, ids) <==>
      exists k :: 0 <= k < |batch| && Classify(files, batch[k]) == Added && f == Entry(batch[k], ids[k])
    decreases |batch|
  {
    if batch != [] {
      var n := |batch| - 1;
      var pre, preIds := batch[..n], ids[..n];
      BatchAcceptedExactly(files, pre, preIds);
      forall f
        ensures f in BatchAccepted(files, batch, ids) <==>
          exists k :: 0 <= k < |batch| && Classify(files, batch[k]) == Added && f == Entry(batch[k], ids[k])
      {
        if f in BatchAccepted(files, pre, preIds) {
          var k :| 0 <= k < |pre| && Classify(files, pre[k]) == Added && f == Entry(pre[k], preIds[k]);
          assert batch[k] == pre[k] && ids[k] == preIds[k];
        }
        if exists k :: 0 <= k < |batch| && Classify(files, batch[k]) == Added && f == Entry(batch[k], ids[k]) {
          var k :| 0 <= k < |batch| && Classify(files, batch[k]) == Added && f == Entry(batch[k], ids[k]);
          if k < n {
            assert pre[k] == batch[k] && preIds[k] == ids[k];
          }
        }
      }
    }
  }

  /** Every accepted file is of an allowed type, within the ceiling, and not
      named like a file of the pre-batch list. */
  lemma AcceptedAreValid(files: seq<UploadedFile>, batch: seq<Candidate>, ids: seq<string>)
    requires |ids| == |batch|
    ensures forall f :: f in BatchAccepted(files, batch, ids) ==>
      f.mime in AcceptedTypes && f.size <= MaxFileSize && !NameTaken(files, f.name)
  {
    BatchAcceptedExactly(files, batch, ids);
  }

  /** Every candidate lands in exactly one of three bins: an error line, an
      added entry, or a silent skip. */
  lemma {:induction false} BatchAccounting(files: seq<UploadedFile>, batch: seq<Candidate>, ids: seq<string>)
    requires |ids| == |batch|
    ensures |BatchErrors(batch)| + |BatchAccepted(files, batch, ids)| + SkippedCount(files, batch) == |batch|
    decreases |batch|
  {
    if batch != [] {
      var n := |batch| - 1;
      BatchAccounting(files, batch[..n], ids[..n]);
    }
  }

  /** Duplicate detection does not look inside the batch: two valid files of
      the same new name in one batch are both added. */
  lemma SameBatchDuplicatesBothAdded(files: seq<UploadedFile>, c1: Candidate, c2: Candidate, id1: string, id2: string)
    requires c1.name == c2.name && !NameTaken(files, c1.name)
    requires ValidateFile(c1) == None && ValidateFile(c2) == None
    ensures BatchAccepted(files, [c1, c2], [id1, id2]) == [Entry(c1, id1), Entry(c2, id2)]
    ensures BatchErrors([c1, c2]) == []
  {
    assert Classify(files, c1) == Added && Classify(files, c2) == Added;
    assert BatchAccepted(files, [c1], [id1]) == [Entry(c1, id1)] by {
      assert [c1][..0] == [] && [id1][..0] == [];
    }
    assert [c1, c2][..1] == [c1] && [id1, id2][..1] == [id1];
    assert BatchAccepted(files, [c1, c2], [id1, id2])
        == BatchAccepted(files, [c1], [id1]) + [Entry(c2, id2)];
    assert BatchErrors([c1]) == [] by {
      assert [c1][..0] == [];
    }
    assert BatchErrors([c1, c2]) == BatchErrors([c1]);
  }

  /** A valid file whose name is already listed is neither added nor
      reported. */
  lemma DuplicateSilentlySkipped(files: seq<UploadedFile>, c: Candidate, id: string)
    requires ValidateFile(c) == None && NameTaken(files, c.name)
    ensures BatchAccepted(files, [c], [id]) == []
    ensures BatchErrors([c]) == []
    ensures SkippedCount(files, [c]) == 1
  {
    assert [c][..0] == [];
    assert [id][..0] == [];
  }

  /** Accepted entries carry the offered identifiers, so fresh identifiers
      keep the identifiers of the extended list unique. */
  lemma {:induction false} AcceptedKeepsIdsUnique(files: seq<UploadedFile>, batch: seq<Candidate>, ids: seq<string>)
    requires |ids| == |batch|
    requires UniqueIds(files) && FreshIds(files, ids)
    ensures UniqueIds(files + BatchAccepted(files, batch, ids))
    decreases |batch|
  {
    if batch != [] {
      var n := |batch| - 1;
      var pre, preIds := batch[..n], ids[..n];
      assert FreshIds(files, preIds) by {
        forall i | 0 <= i < |preIds| ensures preIds[i] == ids[i] { }
      }
      AcceptedKeepsIdsUnique(files, pre, preIds);
      var prev := files + BatchAccepted(files, pre, preIds);
      if Classify(files, batch[n]) == Added {
        var e := Entry(batch[n], ids[n]);
        BatchAcceptedExactly(files, pre, preIds);
        forall i | 0 <= i < |prev| ensures prev[i].id != ids[n] {
          if i < |files| {
            assert prev[i] == files[i];
          } else {
            var f := prev[i];
            assert f in BatchAccepted(files, pre, preIds);
            var k :| 0 <= k < |pre| && Classify(files, pre[k]) == Added && f == Entry(pre[k], preIds[k]);
            assert f.id == ids[k];
          }
        }
        assert files + BatchAccepted(files, batch, ids) == prev + [e];
      } else {
        assert files + BatchAccepted(files, batch, ids) == prev;
      }
    }
  }

  /** `files.filter(f => f.id !== fileId)`. */
  function WithoutId(files: seq<UploadedFile>, id: string): (r: seq<UploadedFile>)
    ensures |r| <= |files|
    decreases |files|
  {
    if files == [] then []
    else (if files[0].id == id then [] else [files[0]]) + WithoutId(files[1..], id)
  }

  /** Removal drops every entry with the identifier and keeps every other
      entry. */
  lemma {:induction false} WithoutIdMembers(files: seq<UploadedFile>, id: string)
    ensures forall f :: f in WithoutId(files, id) <==> f in files && f.id != id
    decreases |files|
  {
    if files != [] {
      WithoutIdMembers(files[1..], id);
      assert forall f :: f in files <==> f == files[0] || f in files[1..];
    }
  }

  /** Removal keeps the surviving entries in their original order. */
  lemma {:induction false} WithoutIdAppend(a: seq<UploadedFile>, b: seq<UploadedFile>, id: string)
    ensures WithoutId(a + b, id) == WithoutId(a, id) + WithoutId(b, id)
    decreases |a|
  {
    if a == [] {
      assert a + b == b;
    } else {
      assert (a + b)[0] == a[0];
      assert (a + b)[1..] == a[1..] + b;
      WithoutIdAppend(a[1..], b, id);
    }
  }

  /** Removing an identifier that is not listed leaves the list as it was. */
  lemma {:induction false} WithoutAbsentId(files: seq<UploadedFile>, id: string)
    requires IdAbsent(files, id)
    ensures WithoutId(files, id) == files
    decreases |files|
  {
    if files != [] {
      WithoutAbsentId(files[1..], id);
    }
  }

  /** The identifier `id` occurs in no entry of `files`. */
  predicate IdAbsent(files: seq<UploadedFile>, id: string) {
    forall i :: 0 <= i < |files| ==> files[i].id != id
  }

  /** With unique identifiers, the identifier of entry k occurs nowhere
      else. */
  lemma UniqueIdsSplit(files: seq<UploadedFile>, k: nat)
    requires UniqueIds(files) && k < |files|
    ensures IdAbsent(files[..k], files[k].id) && IdAbsent(files[k + 1..], files[k].id)
  {
    forall i | 0 <= i < k ensures files[..k][i].id != files[k].id {
      assert files[..k][i] == files[i];
    }
    var after := files[k + 1..];
    forall i | 0 <= i < |after| ensures after[i].id != files[k].id {
      assert after[i] == files[k + 1 + i];
    }
  }

  /** Removing the identifier of the one entry that carries it cuts that
      entry out. */
  lemma RemoveOnlyCarrier(before: seq<UploadedFile>, x: UploadedFile, after: seq<UploadedFile>)
    requires IdAbsent(before, x.id) && IdAbsent(after, x.id)
    ensures WithoutId(before + [x] + after, x.id) == before + after
  {
    var id := x.id;
    assert WithoutId([x], id) == [] by {
      assert [x][1..] == [];
    }
    calc {
      WithoutId(before + [x] + after, id);
      { assert before + [x] + after == before + ([x] + after); }
      WithoutId(before + ([x] + after), id);
      { WithoutIdAppend(before, [x] + after, id); }
      WithoutId(before, id) + WithoutId([x] + after, id);
      { WithoutIdAppend([x], after, id); }
      WithoutId(before, id) + (WithoutId([x], id) + WithoutId(after, id));
      { WithoutAbsentId(before, id); WithoutAbsentId(after, id); }
      before + ([] + after);
      { assert [] + after == after; }
      before + after;
    }
  }

  /** With unique identifiers, removing the identifier of entry k yields the
      list minus exactly that entry. */
  lemma RemoveExactlyOne(files: seq<UploadedFile>, k: nat)
    requires UniqueIds(files) && k < |files|
    ensures WithoutId(files, files[k].id) == files[..k] + files[k + 1..]
    ensures |WithoutId(files, files[k].id)| == |files| - 1
  {
    UniqueIdsSplit(files, k);
    assert files == files[..k] + [files[k]] + files[k + 1..];
    RemoveOnlyCarrier(files[..k], files[k], files[k + 1..]);
  }

  /** Removal keeps identifiers unique. */
  lemma {:induction false} WithoutIdKeepsUnique(files: seq<UploadedFile>, id: string)
    requires UniqueIds(files)
    ensures UniqueIds(WithoutId(files, id))
    decreases |files|
  {
    if files != [] {
      WithoutIdKeepsUnique(files[1..], id);
      var rest := WithoutId(files[1..], id);
      if files[0].id != id {
        WithoutIdMembers(files[1..], id);
        forall i | 0 <= i < |rest| ensures rest[i].id != files[0].id {
          assert rest[i] in rest;
          var j :| 0 <= j < |files[1..]| && files[1..][j] == rest[i];
          assert files[1..][j] == files[j + 1];
        }
        assert WithoutId(files, id) == [files[0]] + rest;
      }
    }
  }

  /** JavaScript's rendering of a non-negative integer: its decimal digits. */
  function DecimalString(n: nat): (r: string)
    ensures r != [] && forall i :: 0 <= i < |r| ==> '0' <= r[i] <= '9'
  {
    var digit := ['0' + (n % 10) as char];
    if n < 10 then digit else DecimalString(n / 10) + digit
  }

  /** The number a string of decimal digits spells, most significant digit
      first. */
  function DigitsValue(s: string): nat
    requires forall i :: 0 <= i < |s| ==> '0' <= s[i] <= '9'
  {
    if s == [] then 0
    else DigitsValue(s[..|s| - 1]) * 10 + (s[|s| - 1] as int - '0' as int)
  }

  /** The digits `DecimalString` prints spell `n`, without a leading zero
      other than for 0 itself. */
  lemma {:induction false} DecimalStringValue(n: nat)
    ensures DigitsValue(DecimalString(n)) == n
    ensures DecimalString(n)[0] == '0' <==> n == 0
  {
    var r := DecimalString(n);
    if n >= 10 {
      DecimalStringValue(n / 10);
      var p := DecimalString(n / 10);
      assert r == p + ['0' + (n % 10) as char];
      assert r[..|r| - 1] == p;
      assert r[0] == p[0];
    }
  }

  predicate EndsWith(s: string, suffix: string) {
    |suffix| <= |s| && s[|s| - |suffix|..] == suffix
  }

  /** A number text followed by one of the three units ends in that unit and
      in neither of the other two. */
  lemma UnitSuffixes(x: string, u: string)
    requires u == " B" || u == " KB" || u == " MB"
    ensures EndsWith(x + u, " B") <==> u == " B"
    ensures EndsWith(x + u, " KB") <==> u == " KB"
    ensures EndsWith(x + u, " MB") <==> u == " MB"
  {
    var s := x + u;
    assert s[|s| - |u|..] == u;
    if u == " B" {
      assert |s| >= 3 ==> s[|s| - 2] == ' ';
      assert |s| >= 3 ==> s[|s| - 3..][1] == s[|s| - 2];
    } else {
      assert s[|s| - 2] == u[1];
      assert s[|s| - 2..][0] == s[|s| - 2];
      assert s[|s| - 3..][1] == s[|s| - 2];
    }
  }

  /** `formatFileSize`: bytes below 1 KiB, KiB below 1 MiB, MiB from there
      on. `toFixed1` stands for JavaScript's `toFixed(1)`. */
  function FormatFileSize(bytes: nat, toFixed1: real -> string): (r: string)
    ensures EndsWith(r, " B") <==> bytes < 1024
    ensures EndsWith(r, " KB") <==> 1024 <= bytes < 1048576
    ensures EndsWith(r, " MB") <==> 1048576 <= bytes
  {
    if bytes < 1024 then
      UnitSuffixes(DecimalString(bytes), " B");
      DecimalString(bytes) + " B"
    else if bytes < 1024 * 1024 then
      UnitSuffixes(toFixed1(bytes as real / 1024.0), " KB");
      toFixed1(bytes as real / 1024.0) + " KB"
    else
      UnitSuffixes(toFixed1(bytes as real / 1048576.0), " MB");
      toFixed1(bytes as real / 1048576.0) + " MB"
  }

  /** The state of the upload component: the ordered list of accepted
      files. */
  class FileUpload {
    var files: seq<UploadedFile>

    ghost predicate Valid()
      reads this
    {
      UniqueIds(files)
    }

    constructor ()
      ensures Valid() && files == []
    {
      files := [];
    }

    /** `handleFileAdd`: validate each candidate in order, collect the error
        lines, collect the accepted entries, then append them to the list.
        `reported` is the list passed to the parent's `onFilesUploaded`
        callback, which is called only when something was added. */
    method HandleFileAdd(batch: seq<Candidate>, ids: seq<string>)
      returns (errors: seq<string>, reported: Option<seq<UploadedFile>>)
      requires Valid()
      requires |ids| == |batch| && FreshIds(files, ids)
      modifies this
      ensures Valid()
      ensures errors == BatchErrors(batch)
      ensures BatchAccepted(old(files), batch, ids) == [] ==> files == old(files) && reported == None
      ensures BatchAccepted(old(files), batch, ids) != [] ==>
        files == old(files) + BatchAccepted(old(files), batch, ids) && reported == Some(files)
    {
      var validFiles: seq<UploadedFile> := [];
      errors := [];
      var i := 0;
      while i < |batch|
        invariant 0 <= i <= |batch|
        invariant validFiles == BatchAccepted(files, batch[..i], ids[..i])
        invariant errors == BatchErrors(batch[..i])
      {
        var c := batch[i];
        assert batch[..i + 1][..i] == batch[..i] && ids[..i + 1][..i] == ids[..i];
        var error := ValidateFile(c);
        if error.Some? {
          errors := errors + [ErrorLine(c, error.value)];
        } else if !NameTaken(files, c.name) {
          validFiles := validFiles + [Entry(c, ids[i])];
        }
        i := i + 1;
      }
      assert batch[..i] == batch && ids[..i] == ids;
      AcceptedKeepsIdsUnique(files, batch, ids);
      if |validFiles| > 0 {
        files := files + validFiles;
        reported := Some(files);
      } else {
        reported := None;
      }
    }

    /** `removeFile`: drop every entry with the given identifier and report
        the new list to the parent. */
    method RemoveFile(id: string) returns (reported: seq<UploadedFile>)
      requires Valid()
      modifies this
      ensures Valid()
      ensures files == WithoutId(old(files), id) && reported == files
    {
      WithoutIdKeepsUnique(files, id);
      files := WithoutId(files, id);
      reported := files;
    }
  }
}
