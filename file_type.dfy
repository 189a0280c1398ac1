/** file_type.cpp: telling JPEG and PNG files apart by their extension. */
module FileTypes {

  /** The kinds of input file the program knows. */
  datatype FileType = JPEG | PNG | UNKNOWN

  /** Sizes of std::string are 64-bit unsigned numbers; npos is the largest. */
  const SizeModulus: nat := 0x1_0000_0000_0000_0000
  const Npos: nat := SizeModulus - 1

  /** Subtraction of two sizes, wrapping around as unsigned arithmetic does. */
  function SizeSub(a: nat, b: nat): (d: nat)
    requires a < SizeModulus && b < SizeModulus
    ensures d < SizeModulus
    ensures b <= a ==> d == a - b
    ensures a < b ==> d == SizeModulus - (b - a)
  {
    (a - b) % SizeModulus
  }

  /** t occurs in s at position i. */
  predicate OccursAt(s: string, t: string, i: nat)
  {
    i + |t| <= |s| && s[i..i + |t|] == t
  }

  /** t is a suffix of s. */
  predicate IsSuffix(t: string, s: string)
  {
    |t| <= |s| && s[|s| - |t|..] == t
  }

  /** std::string::find(t, pos): the first position at or after pos where t
      occurs in s, or npos when there is none. */
  function Find(s: string, t: string, pos: nat): (r: nat)
    requires |s| < Npos
    ensures r == Npos || (pos <= r && OccursAt(s, t, r))
    ensures forall i :: pos <= i && (r == Npos || i < r) ==> !OccursAt(s, t, i)
    decreases |s| + 1 - pos
  {
    if pos + |t| > |s| then
      Npos
    else if s[pos..pos + |t|] == t then
      pos
    else
      Find(s, t, pos + 1)
  }

  /** ends_in: look for t from the position where it would have to start to be
      a suffix. When t is longer than s that position wraps around to a huge
      number, find starts beyond the end and returns npos, so the answer is
      false, as it should be. */
  function EndsIn(s: string, t: string): (b: bool)
    requires |s| < Npos && |t| < Npos
    ensures b <==> IsSuffix(t, s)
  {
    var pos := SizeSub(|s|, |t|);
    assert |t| <= |s| ==> (OccursAt(s, t, pos) <==> IsSuffix(t, s));
    Npos != Find(s, t, pos)
  }

  /** tolower in the C locale: only the letters A to Z change. */
  function LowerChar(c: char): (l: char)
    ensures 'A' <= c <= 'Z' ==> l as int == c as int + 32
    ensures !('A' <= c <= 'Z') ==> l == c
    ensures !('A' <= l <= 'Z')
  {
    if 'A' <= c <= 'Z' then (c as int + 32) as char else c
  }

  /** The string with every character passed through tolower. */
  function Lower(s: string): (l: string)
    ensures |l| == |s|
    ensures forall i :: 0 <= i < |l| ==> !('A' <= l[i] <= 'Z')
  {
    seq(|s|, i requires 0 <= i < |s| => LowerChar(s[i]))
  }

  /** The ending tests of file_type, applied to an already lower-cased name. */
  function Classify(name: string): (t: FileType)
    requires |name| < Npos
  {
    if EndsIn(name, ".jpg") || EndsIn(name, ".jpeg") then JPEG
    else if EndsIn(name, ".png") then PNG
    else UNKNOWN
  }

  /** A name is a JPEG exactly when it ends in ".jpg" or ".jpeg", a PNG when it
      ends in ".png", and unknown otherwise. */
  lemma ClassifyBySuffix(name: string)
    requires |name| < Npos
    ensures Classify(name) == JPEG <==> IsSuffix(".jpg", name) || IsSuffix(".jpeg", name)
    ensures Classify(name) == PNG <==> IsSuffix(".png", name)
    ensures Classify(name) == UNKNOWN <==>
              !IsSuffix(".jpg", name) && !IsSuffix(".jpeg", name) && !IsSuffix(".png", name)
  {
    if IsSuffix(".png", name) {
      NotBoth(name, ".png", ".jpg", 3);
      NotBoth(name, ".png", ".jpeg", 2);
    }
  }

  /** Two suffixes that differ in their k-th last character cannot both end
      a name. */
  lemma NotBoth(name: string, t: string, u: string, k: nat)
    requires 0 < k <= |t| && k <= |u| && t[|t| - k] != u[|u| - k]
    requires IsSuffix(t, name)
    ensures !IsSuffix(u, name)
  {
    assert name[|name| - k] == t[|t| - k];
  }

  /** Lower-casing commutes with concatenation. */
  lemma LowerAppend(a: string, b: string)
    ensures Lower(a + b) == Lower(a) + Lower(b)
  {
  }

  /** Lower-casing twice is lower-casing once. */
  lemma LowerIdempotent(s: string)
    ensures Lower(Lower(s)) == Lower(s)
  {
  }

  /** filename(): name is the final component of path. */
  predicate FinalComponent(name: string, path: string)
  {
    IsSuffix(name, path) && (forall i :: 0 <= i < |name| ==> name[i] != '/') &&
    (|name| == |path| || path[|path| - |name| - 1] == '/')
  }

  /** empdfer::file_type, with the file name lower-cased in its own buffer
      before its ending is classified. */
  method FileTypeOf(path: string, name: string) returns (t: FileType)
    requires |path| < Npos && FinalComponent(name, path)
    ensures t == Classify(Lower(name))
  {
    var buffer := new char[|name|](i requires 0 <= i < |name| => name[i]);
    var i := 0;
    while i < buffer.Length
      invariant 0 <= i <= buffer.Length
      invariant forall k :: 0 <= k < i ==> buffer[k] == LowerChar(name[k])
      invariant forall k :: i <= k < buffer.Length ==> buffer[k] == name[k]
    {
      buffer[i] := LowerChar(buffer[i]);
      i := i + 1;
    }
    assert buffer[..] == Lower(name);
    t := Classify(buffer[..]);
  }

  /** The extension is recognised whatever its case: a name whose ending
      lower-cases to ".jpg", ".jpeg" or ".png" gets that type. */
  lemma ExtensionIgnoresCase(stem: string, ext: string)
    requires |stem| + |ext| < Npos
    ensures Lower(ext) == ".jpg" || Lower(ext) == ".jpeg" ==> Classify(Lower(stem + ext)) == JPEG
    ensures Lower(ext) == ".png" ==> Classify(Lower(stem + ext)) == PNG
  {
    LowerAppend(stem, ext);
    var name := Lower(stem) + Lower(ext);
    ClassifyBySuffix(name);
    assert name[|name| - |ext|..] == Lower(ext);
  }

  /** What file_type leaves in name's characters as written: it lower-cases
      the whole path into name's buffer, so name ends up holding the first
      |name| characters of the lower-cased path (whatever is left over is
      written past the end of name). */
  function TransformedName(path: string, name: string): (written: string)
    requires FinalComponent(name, path)
    ensures |written| == |name|
    ensures |name| == |path| ==> written == Lower(name)
  {
    Lower(path)[..|name|]
  }

  /** The classification the source computes as written. */
  function FileTypeAsWritten(path: string, name: string): FileType
    requires |path| < Npos && FinalComponent(name, path)
  {
    Classify(TransformedName(path, name))
  }

  /** For a path with a folder the written-over name loses its extension: the
      PNG file d/x.png is classified as unknown, while the file name
      lower-cased on its own is a PNG. */
  lemma FolderPathMisclassified()
    ensures FinalComponent("x.png", "d/x.png")
    ensures TransformedName("d/x.png", "x.png") == "d/x.p"
    ensures FileTypeAsWritten("d/x.png", "x.png") == UNKNOWN
    ensures Classify(Lower("x.png")) == PNG
  {
    var path, name := "d/x.png", "x.png";
    assert path[|path| - |name|..] == name;
    assert name == ['x', '.', 'p', 'n', 'g'];
    assert forall i :: 0 <= i < |name| ==> name[i] != '/';
    assert path[|path| - |name| - 1] == '/';
    LowerPlain(path);
    LowerPlain(name);
    assert path[..|name|] == "d/x.p";
    ClassifyBySuffix("d/x.p");
    ClassifyBySuffix(name);
    assert name[|name| - 4..] == ".png";
  }

  /** A string without upper-case letters is its own lower-case form. */
  lemma LowerPlain(s: string)
    requires forall i :: 0 <= i < |s| ==> !('A' <= s[i] <= 'Z')
    ensures Lower(s) == s
  {
  }
}
