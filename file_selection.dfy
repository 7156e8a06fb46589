/** The drop zone of the client (`FileUpload`): a list of at most two PDF
    files. Dropping appends candidates whose MIME type is exactly
    `application/pdf` while there is room; removing splices one position out.
    After either change the component stores the new list and hands the same
    list to its parent through `onFilesChange`, which the page wires to its
    `handleFilesChange`. */
module FileSelection {
  import opened Common
  import Submission

  const PdfMime := "application/pdf"
  const MaxFiles := 2

  /** The client's notion of a PDF: the browser-reported MIME type. */
  predicate IsPdfMime(f: UploadFile) {
    f.mimeType == PdfMime
  }

  /** The candidates that pass the MIME test, in their order. */
  function PdfOnly(candidates: seq<UploadFile>): (r: seq<UploadFile>)
    ensures |r| <= |candidates|
    ensures forall i :: 0 <= i < |r| ==> IsPdfMime(r[i]) && r[i] in candidates
    ensures forall x :: x in candidates && IsPdfMime(x) ==> x in r
  {
    if candidates == [] then []
    else (if IsPdfMime(candidates[0]) then [candidates[0]] else []) + PdfOnly(candidates[1..])
  }

  /** How many more files the list can take. */
  function FreeSlots(files: seq<UploadFile>): nat {
    if |files| < MaxFiles then MaxFiles - |files| else 0
  }

  /** The first `n` elements of `s`, or all of `s` when it is shorter. */
  function Take<T>(s: seq<T>, n: nat): (r: seq<T>)
    ensures |r| == if n <= |s| then n else |s|
    ensures r <= s
  {
    if n <= |s| then s[..n] else s
  }

  /** The list after a drop: the old list followed by as many of the PDF
      candidates as there are free slots, in input order. */
  function DropResult(files: seq<UploadFile>, candidates: seq<UploadFile>): seq<UploadFile> {
    files + Take(PdfOnly(candidates), FreeSlots(files))
  }

  /** `splice(index, 1)` on a copy of the list: the element at `index` is
      taken out, and an index past the end changes nothing. */
  function Spliced(files: seq<UploadFile>, index: nat): seq<UploadFile> {
    if index < |files| then files[..index] + files[index + 1..] else files
  }

  /** The component's invariant: at most two entries, all PDF by MIME type. */
  predicate Selection(files: seq<UploadFile>) {
    |files| <= MaxFiles && forall i :: 0 <= i < |files| ==> IsPdfMime(files[i])
  }

  class FileSelector {
    var files: seq<UploadFile>
    /** The page whose `handleFilesChange` is this component's `onFilesChange`. */
    const owner: Submission.App

    /** The list is a valid selection, and the page holds the same list. */
    predicate Valid()
      reads this, owner
    {
      Selection(files) && owner.files == files
    }

    constructor (owner: Submission.App)
      requires owner.files == []
      ensures this.owner == owner && files == [] && Valid()
    {
      this.owner := owner;
      files := [];
    }

    /** `onDrop`: copy the list, append each candidate that is a PDF while
        fewer than two entries are held, then store and report the copy. */
    method OnDrop(accepted: seq<UploadFile>)
      requires Valid()
      modifies this, owner
      ensures Valid()
      ensures files == DropResult(old(files), accepted)
      ensures owner.State() == Submission.FilesChanged(old(owner.State()), files)
    {
      var held := files;
      var newFiles := held;
      var i := 0;
      while i < |accepted|
        invariant 0 <= i <= |accepted|
        invariant newFiles == DropResult(held, accepted[..i])
        invariant unchanged(this, owner)
      {
        DropStep(held, accepted, i);
        if |newFiles| < MaxFiles && IsPdfMime(accepted[i]) {
          newFiles := newFiles + [accepted[i]];
        }
        i := i + 1;
      }
      assert accepted[..i] == accepted;
      DropKeepsSelection(held, accepted);
      files := newFiles;
      owner.HandleFilesChange(newFiles);
    }

    /** `removeFile`: copy the list, splice out one position, then store and
        report the copy. */
    method RemoveFile(index: nat)
      requires Valid()
      modifies this, owner
      ensures Valid()
      ensures files == Spliced(old(files), index)
      ensures owner.State() == Submission.FilesChanged(old(owner.State()), files)
    {
      var newFiles := files;
      if index < |newFiles| {
        newFiles := newFiles[..index] + newFiles[index + 1..];
      }
      SplicedKeepsSelection(files, index);
      files := newFiles;
      owner.HandleFilesChange(newFiles);
    }
  }

  lemma {:induction false} PdfOnlyAppend(a: seq<UploadFile>, b: seq<UploadFile>)
    ensures PdfOnly(a + b) == PdfOnly(a) + PdfOnly(b)
  {
    if a == [] {
      assert a + b == b;
    } else {
      var head := if IsPdfMime(a[0]) then [a[0]] else [];
      assert (a + b)[0] == a[0];
      assert (a + b)[1..] == a[1..] + b;
      assert PdfOnly(a + b) == head + PdfOnly(a[1..] + b);
      PdfOnlyAppend(a[1..], b);
      assert head + (PdfOnly(a[1..]) + PdfOnly(b)) == (head + PdfOnly(a[1..])) + PdfOnly(b);
    }
  }

  /** One turn of the drop loop: the next candidate is appended exactly when
      the list so far has room and the candidate is a PDF. */
  lemma DropStep(files: seq<UploadFile>, accepted: seq<UploadFile>, i: nat)
    requires i < |accepted|
    ensures DropResult(files, accepted[..i + 1]) ==
      if |DropResult(files, accepted[..i])| < MaxFiles && IsPdfMime(accepted[i])
      then DropResult(files, accepted[..i]) + [accepted[i]]
      else DropResult(files, accepted[..i])
  {
    var done, next := accepted[..i], accepted[i];
    assert accepted[..i + 1] == done + [next];
    PdfOnlyAppend(done, [next]);
    assert PdfOnly([next]) == if IsPdfMime(next) then [next] else [] by {
      assert [next][1..] == [];
    }
    var p := PdfOnly(done);
    var n := FreeSlots(files);
    if |p| < n && IsPdfMime(next) {
      assert Take(p + [next], n) == p + [next];
    } else if IsPdfMime(next) {
      assert (p + [next])[..n] == p[..n];
    } else {
      assert p + [] == p;
    }
  }

  /** The number of entries after a drop: the old ones plus as many PDF
      candidates as fit, never more than two when starting from at most two. */
  lemma DropLength(files: seq<UploadFile>, candidates: seq<UploadFile>)
    requires |files| <= MaxFiles
    ensures |DropResult(files, candidates)| ==
      if |files| + |PdfOnly(candidates)| <= MaxFiles then |files| + |PdfOnly(candidates)| else MaxFiles
    ensures |DropResult(files, candidates)| <= MaxFiles
  {
  }

  /** A drop keeps the old entries, in place and in order, and adds only PDF
      files taken from the candidates. */
  lemma DropExtends(files: seq<UploadFile>, candidates: seq<UploadFile>)
    ensures files <= DropResult(files, candidates)
    ensures forall i :: |files| <= i < |DropResult(files, candidates)| ==>
      IsPdfMime(DropResult(files, candidates)[i]) && DropResult(files, candidates)[i] in candidates
  {
  }

  /** A full list ignores every drop. */
  lemma DropWhenFull(files: seq<UploadFile>, candidates: seq<UploadFile>)
    requires |files| >= MaxFiles
    ensures DropResult(files, candidates) == files
  {
  }

  /** A candidate that is not a PDF never takes a free slot: the drop comes out
      the same with or without it. */
  lemma NonPdfTakesNoSlot(files: seq<UploadFile>, before: seq<UploadFile>, x: UploadFile, after: seq<UploadFile>)
    requires !IsPdfMime(x)
    ensures DropResult(files, before + [x] + after) == DropResult(files, before + after)
  {
    PdfOnlyAppend(before + [x], after);
    PdfOnlyAppend(before, [x]);
    PdfOnlyAppend(before, after);
    assert PdfOnly([x]) == [] by {
      assert [x][1..] == [];
    }
    assert PdfOnly(before) + [] == PdfOnly(before);
  }

  lemma DropKeepsSelection(files: seq<UploadFile>, candidates: seq<UploadFile>)
    requires Selection(files)
    ensures Selection(DropResult(files, candidates))
  {
    DropExtends(files, candidates);
  }

  /** Removing a held position takes out exactly that element: the list is one
      shorter, the others keep their order, and the multiset loses that one
      element. */
  lemma SplicedRemovesOne(files: seq<UploadFile>, index: nat)
    requires index < |files|
    ensures |Spliced(files, index)| == |files| - 1
    ensures forall j :: 0 <= j < index ==> Spliced(files, index)[j] == files[j]
    ensures forall j :: index <= j < |files| - 1 ==> Spliced(files, index)[j] == files[j + 1]
    ensures multiset(Spliced(files, index)) + multiset{files[index]} == multiset(files)
  {
    assert files == files[..index] + [files[index]] + files[index + 1..];
  }

  /** Removing a position past the end changes nothing. */
  lemma SplicedOutOfRange(files: seq<UploadFile>, index: nat)
    requires index >= |files|
    ensures Spliced(files, index) == files
  {
  }

  lemma SplicedKeepsSelection(files: seq<UploadFile>, index: nat)
    requires Selection(files)
    ensures Selection(Spliced(files, index))
  {
    if index < |files| {
      SplicedRemovesOne(files, index);
    }
  }
}
