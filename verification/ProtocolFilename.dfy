/** Target IDs `[THW_ID]_[POSITION]` and protocol filenames `[TARGET_ID].[EXTENSION]`. */
module Filenames {

  datatype TargetId = TargetId(thwId: string, position: string)

  datatype FileType =
    | Invalid
    | LoadConfigurationInitialization | LoadConfigurationList | LoadConfigurationStatus
    | UploadInitialization | UploadRequest | UploadStatus
    | MediaDefinedDownloadInitialization | MediaDefinedDownloadRequest
    | OperatorDefinedDownloadInitialization | OperatorDefinedDownloadList | OperatorDefinedDownloadAnswer
    | DownloadStatus

  datatype ProtocolFilename = ProtocolFilename(targetId: TargetId, fileType: FileType)

  /** Index of the first `c`, or the length. */
  function Find(s: string, c: char): (i: nat)
    ensures i <= |s| && c !in s[..i] && (i < |s| ==> s[i] == c)
  {
    if s == "" || s[0] == c then 0
    else
      assert s == [s[0]] + s[1..];
      1 + Find(s[1..], c)
  }

  /** Two empty strings if there is no `c`. */
  function Split(s: string, c: char): (string, string) {
    var i := Find(s, c);
    if i == |s| then ("", "") else (s[..i], s[i + 1..])
  }

  predicate IsAlnum(c: char) {
    '0' <= c <= '9' || 'A' <= c <= 'Z' || 'a' <= c <= 'z'
  }

  predicate IsCompliant(s: string, min: nat, max: nat) {
    min <= |s| <= max && forall c <- s :: IsAlnum(c)
  }

  predicate Compliant(t: TargetId) {
    IsCompliant(t.thwId, 4, 15) && IsCompliant(t.position, 0, 8)
  }

  function ParseTargetId(s: string): TargetId {
    var (thwId, position) := Split(s, '_');
    TargetId(thwId, position)
  }

  predicate IsTargetId(s: string) {
    Compliant(ParseTargetId(s))
  }

  function PrintTargetId(t: TargetId): string {
    t.thwId + "_" + t.position
  }

  function Extension(t: FileType): string {
    match t
    case Invalid => ""
    case LoadConfigurationInitialization => "LCI"
    case LoadConfigurationList => "LCL"
    case LoadConfigurationStatus => "LCS"
    case UploadInitialization => "LUI"
    case UploadRequest => "LUR"
    case UploadStatus => "LUS"
    case MediaDefinedDownloadInitialization => "LND"
    case MediaDefinedDownloadRequest => "LNR"
    case OperatorDefinedDownloadInitialization => "LNO"
    case OperatorDefinedDownloadList => "LNL"
    case OperatorDefinedDownloadAnswer => "LNA"
    case DownloadStatus => "LNS"
  }

  function FileTypeOf(extension: string): FileType {
    if extension == "LCI" then LoadConfigurationInitialization
    else if extension == "LCL" then LoadConfigurationList
    else if extension == "LCS" then LoadConfigurationStatus
    else if extension == "LUI" then UploadInitialization
    else if extension == "LUR" then UploadRequest
    else if extension == "LUS" then UploadStatus
    else if extension == "LND" then MediaDefinedDownloadInitialization
    else if extension == "LNR" then MediaDefinedDownloadRequest
    else if extension == "LNO" then OperatorDefinedDownloadInitialization
    else if extension == "LNL" then OperatorDefinedDownloadList
    else if extension == "LNA" then OperatorDefinedDownloadAnswer
    else if extension == "LNS" then DownloadStatus
    else Invalid
  }

  function ParseFilename(s: string): ProtocolFilename {
    var (target, extension) := Split(s, '.');
    ProtocolFilename(ParseTargetId(target), FileTypeOf(extension))
  }

  predicate IsProtocolFilename(s: string) {
    var (target, extension) := Split(s, '.');
    IsTargetId(target) && FileTypeOf(extension) != Invalid
  }

  function PrintFilename(f: ProtocolFilename): string {
    PrintTargetId(f.targetId) + "." + Extension(f.fileType)
  }

  // ---- Printing and parsing ------------------------------------------------------------------------------------------

  lemma Extensions(t: FileType)
    ensures FileTypeOf(Extension(t)) == t
    ensures '.' !in Extension(t) && '_' !in Extension(t)
  {
  }

  lemma ValidExtension(e: string)
    requires FileTypeOf(e) != Invalid
    ensures Extension(FileTypeOf(e)) == e
  {
  }

  lemma {:induction false} FindIsFirst(s: string, c: char, n: nat)
    requires n <= |s| && c !in s[..n] && (n < |s| ==> s[n] == c)
    ensures Find(s, c) == n
  {
  }

  lemma FindAfter(a: string, c: char, b: string)
    ensures c !in a ==> Find(a + [c] + b, c) == |a|
    ensures Find(a + [c] + b, c) <= |a|
  {
    var s := a + [c] + b;
    assert s[..|a|] == a && s[|a|] == c;
    var i := Find(a, c);
    assert s[..i] == a[..i];
    FindIsFirst(s, c, i);
  }

  lemma SplitPrinted(a: string, c: char, b: string)
    requires c !in a
    ensures Split(a + [c] + b, c) == (a, b)
  {
    FindAfter(a, c, b);
    assert (a + [c] + b)[..|a|] == a && (a + [c] + b)[|a| + 1..] == b;
  }

  /** If what is behind the first `c` has no `c`, then the first `c` is the one that was put there. */
  lemma SplitOnly(a: string, c: char, b: string)
    requires c !in Split(a + [c] + b, c).1
    ensures Split(a + [c] + b, c) == (a, b)
  {
    var s := a + [c] + b;
    var i := Find(s, c);
    FindAfter(a, c, b);
    assert s[|a|] == c;
    InTail(s, i, |a|);
    assert s[..|a|] == a && s[|a| + 1..] == b;
  }

  lemma InTail(s: string, i: nat, k: nat)
    requires k < |s|
    ensures i < k ==> s[k] in s[i + 1..]
  {
  }

  /**
   * A printed name parses back to itself and is recognised as a protocol filename, if and only if target ID and
   * type are valid.
   */
  lemma PrintThenParse(f: ProtocolFilename)
    ensures IsProtocolFilename(PrintFilename(f)) <==> Compliant(f.targetId) && f.fileType != Invalid
    ensures Compliant(f.targetId) ==> ParseFilename(PrintFilename(f)) == f
  {
    var target, e := PrintTargetId(f.targetId), Extension(f.fileType);
    Extensions(f.fileType);
    if Compliant(f.targetId) {
      SplitPrinted(f.targetId.thwId, '_', f.targetId.position);
      assert '.' !in target;
      SplitPrinted(target, '.', e);
    } else if IsProtocolFilename(PrintFilename(f)) {
      var (t, x) := Split(PrintFilename(f), '.');
      Extensions(FileTypeOf(x));
      ValidExtension(x);
      SplitOnly(target, '.', e);
      assert '_' !in ParseTargetId(target).position;
      SplitOnly(f.targetId.thwId, '_', f.targetId.position);
      assert false;
    }
  }

  lemma ParseThenPrint(s: string)
    requires IsProtocolFilename(s)
    ensures PrintFilename(ParseFilename(s)) == s
    ensures Compliant(ParseFilename(s).targetId) && ParseFilename(s).fileType != Invalid
  {
  }

  /** Target IDs are what their names print to: different targets never share a protocol filename. */
  lemma NamesSeparateTargets(f: ProtocolFilename, g: ProtocolFilename)
    requires Compliant(f.targetId) && Compliant(g.targetId)
    requires PrintFilename(f) == PrintFilename(g)
    ensures f == g
  {
    PrintThenParse(f);
    PrintThenParse(g);
  }
}
