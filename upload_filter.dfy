/**
 * The file-name filter of the upload route (`allowed_file` in MC_web.py): a
 * name is accepted when it has a '.' and the text after its LAST '.', lower-
 * cased, is one of the image extensions the monitor can read.
 */
module UploadFilter {
  import opened Optional

  /** The extensions accepted by `allowed_file`. */
  const AllowedExtensions: set<string> := {"png", "jpg", "jpeg", "gif", "bmp"}

  /** Lower-casing of one character; only 'A'..'Z' change. */
  function LowerChar(c: char): char {
    if 'A' <= c <= 'Z' then (c as int + 32) as char else c
  }

  /** `str.lower()`, restricted to ASCII letters: no capital is left and every other character is kept. */
  function Lower(s: string): (r: string)
    ensures |r| == |s|
    ensures forall i :: 0 <= i < |s| ==> !('A' <= r[i] <= 'Z')
    ensures forall i :: 0 <= i < |s| ==> !('A' <= s[i] <= 'Z') ==> r[i] == s[i]
    ensures forall i :: 0 <= i < |s| ==> 'A' <= s[i] <= 'Z' ==> r[i] as int == s[i] as int + 32
  {
    seq(|s|, i requires 0 <= i < |s| => LowerChar(s[i]))
  }

  /** The index of the last '.' of `f`, if there is one. */
  function LastDot(f: string): (r: Option<nat>)
    ensures r.None? <==> forall j :: 0 <= j < |f| ==> f[j] != '.'
    ensures r.Some? ==> r.value < |f| && f[r.value] == '.'
    ensures r.Some? ==> forall j :: r.value < j < |f| ==> f[j] != '.'
  {
    if |f| == 0 then None
    else if f[|f| - 1] == '.' then Some(|f| - 1)
    else LastDot(f[..|f| - 1])
  }

  /**
   * `filename.rsplit('.', 1)[1]`, guarded by `'.' in filename`: the text after
   * the last '.', or None for a name without one.
   */
  function Extension(f: string): Option<string> {
    match LastDot(f)
    case None => None
    case Some(i) => Some(f[i + 1..])
  }

  /** The extension test, ignoring case. */
  predicate AllowedExtension(e: string) {
    Lower(e) in AllowedExtensions
  }

  /**
   * `allowed_file(filename)`: `f` is accepted iff some '.' in it has no '.'
   * after it and the lower-cased text after that '.' is an allowed extension.
   */
  function AllowedFile(f: string): (ok: bool)
    ensures ok <==> exists i :: IsLastDot(f, i) && AllowedExtension(f[i + 1..])
  {
    ExtensionAfterLastDot(f);
    match Extension(f)
    case None => false
    case Some(e) => AllowedExtension(e)
  }

  /** `i` is the position of a '.' in `f` with no '.' after it. */
  predicate IsLastDot(f: string, i: int) {
    0 <= i < |f| && f[i] == '.' && forall j :: i < j < |f| ==> f[j] != '.'
  }

  /** Where the last '.' is, the extension is the text after it; where there is none, there is no extension. */
  lemma ExtensionAfterLastDot(f: string)
    ensures forall i :: IsLastDot(f, i) ==> Extension(f) == Some(f[i + 1..])
    ensures Extension(f).Some? ==> IsLastDot(f, LastDot(f).value)
  {
    forall i | IsLastDot(f, i)
      ensures Extension(f) == Some(f[i + 1..])
    {
      ExtensionAt(f, i);
    }
  }

  /** The extension is the text after the '.' that has no '.' after it. */
  lemma ExtensionAt(f: string, i: int)
    ensures IsLastDot(f, i) <==> LastDot(f) == Some(i)
    ensures IsLastDot(f, i) ==> Extension(f) == Some(f[i + 1..])
  {
    LastDotCharacterised(f, i);
  }

  /** `LastDot` finds exactly the '.' with no '.' after it. */
  lemma LastDotCharacterised(f: string, i: int)
    ensures LastDot(f) == Some(i) <==> IsLastDot(f, i)
  {
    var d := LastDot(f);
    if IsLastDot(f, i) {
      assert d.Some?;
      if i < d.value { assert false; }
      if d.value < i { assert false; }
    }
  }

  /** A name without any '.' is rejected. */
  lemma NoDotRejected(f: string)
    requires forall j :: 0 <= j < |f| ==> f[j] != '.'
    ensures !AllowedFile(f)
  {
  }

  /**
   * Only the last extension counts: whatever comes before the last '.', the
   * verdict on `stem + "." + ext` depends on `ext` alone.
   */
  lemma {:induction false} OnlyLastExtensionCounts(stem: string, ext: string)
    requires forall j :: 0 <= j < |ext| ==> ext[j] != '.'
    ensures AllowedFile(stem + "." + ext) <==> Lower(ext) in AllowedExtensions
  {
    var f := stem + "." + ext;
    assert f[|stem|] == '.';
    assert forall j :: |stem| < j < |f| ==> f[j] == ext[j - |stem| - 1];
    var d := LastDot(f);
    assert d.Some?;
    if d.value != |stem| {
      assert false;
    }
    assert f[|stem| + 1..] == ext;
  }

  /** Only the last extension counts: "a.jpg.exe" is rejected. */
  lemma DoubleExtensionRejected()
    ensures !AllowedFile("a.jpg.exe")
  {
    assert "a.jpg" + "." + "exe" == "a.jpg.exe";
    OnlyLastExtensionCounts("a.jpg", "exe");
    assert Lower("exe") !in AllowedExtensions by {
      assert Lower("exe")[0] == 'e';
      assert forall e :: e in AllowedExtensions ==> e[0] != 'e';
    }
  }

  /** Case is ignored and only the last extension counts: "a.EXE.JPG" is accepted. */
  lemma UpperCaseLastExtensionAccepted()
    ensures AllowedFile("a.EXE.JPG")
  {
    assert "a.EXE" + "." + "JPG" == "a.EXE.JPG";
    OnlyLastExtensionCounts("a.EXE", "JPG");
    assert Lower("JPG") == "jpg";
  }

  /** A name ending in '.' has an empty extension and is rejected. */
  lemma EmptyExtensionRejected(stem: string)
    ensures !AllowedFile(stem + ".")
  {
    OnlyLastExtensionCounts(stem, "");
    assert stem + "." + "" == stem + ".";
  }
}
