/**
 * The `os.path` functions the bot calls, with their POSIX meaning
 * (`posixpath.basename`, `posixpath.join` with two arguments,
 * `posixpath.splitext`).
 */
module PosixPath {
  import opened PyStr

  const Sep: char := '/'
  const ExtSep: char := '.'

  /** `os.path.basename(p)`: everything after the last separator. */
  function Basename(p: string): string
  {
    p[RFind(p, Sep) + 1..]
  }

  /** The basename is a suffix of the path. */
  lemma BasenameIsSuffix(p: string)
    ensures EndsWith(p, Basename(p))
  {
    var b := Basename(p);
    assert p[|p| - |b|..] == b;
  }

  /** The basename holds no separator. */
  lemma BasenameHasNoSep(p: string)
    ensures Sep !in Basename(p)
  {
    RFindFacts(p, Sep);
    var i := RFind(p, Sep);
    var b := Basename(p);
    forall k | 0 <= k < |b| ensures b[k] != Sep {
      assert b[k] == p[i + 1 + k];
    }
  }

  /** A path without separators is its own basename. */
  lemma BasenameOfPlainName(p: string)
    requires Sep !in p
    ensures Basename(p) == p
  {
    RFindFacts(p, Sep);
  }

  /** The basename is the last component: a suffix without separators, and the whole path when it has none. */
  lemma BasenameFacts(p: string)
    ensures EndsWith(p, Basename(p))
    ensures Sep !in Basename(p)
    ensures Sep !in p ==> Basename(p) == p
  {
    BasenameIsSuffix(p);
    BasenameHasNoSep(p);
    if Sep !in p {
      BasenameOfPlainName(p);
    }
  }

  /** `os.path.join(a, b)`: an absolute `b` replaces `a`; otherwise one separator goes between them. */
  function Join(a: string, b: string): string
  {
    if StartsWith(b, [Sep]) then b
    else if a == [] || EndsWith(a, [Sep]) then a + b
    else a + [Sep] + b
  }

  /** The joined path ends with the name joined on. */
  lemma JoinEndsWith(a: string, b: string)
    ensures EndsWith(Join(a, b), b)
  {
    var j := Join(a, b);
    assert j[|j| - |b|..] == b;
  }

  /** A name without separators is the basename of what it is joined to. */
  lemma BasenameOfJoin(a: string, b: string)
    requires Sep !in b
    ensures Basename(Join(a, b)) == b
  {
    var j := Join(a, b);
    JoinEndsWith(a, b);
    RFindFacts(j, Sep);
    var i := RFind(j, Sep);
    var n := |j| - |b|;
    assert j[n..] == b;
    assert forall k :: n <= k < |j| ==> j[k] == b[k - n];
    assert n > 0 ==> j[n - 1] == Sep;
    assert i == n - 1;
  }

  /** Joining onto the same directory keeps relative names apart. */
  lemma JoinInjective(a: string, b1: string, b2: string)
    requires Join(a, b1) == Join(a, b2)
    requires StartsWith(b1, [Sep]) <==> StartsWith(b2, [Sep])
    ensures b1 == b2
  {
    if !StartsWith(b1, [Sep]) {
      var p := if a == [] || EndsWith(a, [Sep]) then a else a + [Sep];
      assert Join(a, b1) == p + b1 && Join(a, b2) == p + b2;
      assert b1 == (p + b1)[|p|..];
    }
  }

  predicate AllDots(s: string)
  {
    forall k :: 0 <= k < |s| ==> s[k] == ExtSep
  }

  /**
   * `os.path.splitext(p)`: the extension is the text from the last dot of
   * the last path component, unless every character before that dot in the
   * component is itself a dot (`.pdf` and `..pdf` have no extension).
   */
  function SplitExt(p: string): (string, string)
  {
    var sepIndex := RFind(p, Sep);
    var dotIndex := RFind(p, ExtSep);
    if dotIndex > sepIndex && !AllDots(p[sepIndex + 1..dotIndex]) then (p[..dotIndex], p[dotIndex..])
    else (p, [])
  }

  /** An extension-shaped suffix: a dot followed by neither dots nor separators. */
  predicate IsExtension(e: string)
  {
    |e| > 0 && e[0] == ExtSep && forall k :: 1 <= k < |e| ==> e[k] != ExtSep && e[k] != Sep
  }

  /** The two parts of `splitext` concatenate back to the path, and the second is empty or an extension. */
  lemma SplitExtFacts(p: string)
    ensures SplitExt(p).0 + SplitExt(p).1 == p
    ensures SplitExt(p).1 == [] || IsExtension(SplitExt(p).1)
  {
    RFindFacts(p, Sep);
    RFindFacts(p, ExtSep);
    var sepIndex := RFind(p, Sep);
    var dotIndex := RFind(p, ExtSep);
    if dotIndex > sepIndex && !AllDots(p[sepIndex + 1..dotIndex]) {
      var e := p[dotIndex..];
      assert SplitExt(p) == (p[..dotIndex], e);
      assert e[0] == p[dotIndex] == ExtSep;
      forall k | 1 <= k < |e| ensures e[k] != ExtSep && e[k] != Sep {
        assert e[k] == p[dotIndex + k];
        assert dotIndex < dotIndex + k && sepIndex < dotIndex + k;
      }
      assert p[..dotIndex] + e == p;
    } else {
      assert SplitExt(p) == (p, []);
      assert p + [] == p;
    }
  }

  /** `os.path.splitext(p)[0]` */
  function Stem(p: string): string
  {
    SplitExt(p).0
  }

  /** The stem of a name without separators has none either. */
  lemma NoSepInStem(p: string)
    requires Sep !in p
    ensures Sep !in Stem(p)
  {
    var stem := Stem(p);
    SplitExtFacts(p);
    assert p == stem + SplitExt(p).1;
    assert forall k :: 0 <= k < |stem| ==> stem[k] == p[k];
  }

  /** In a separator-free name followed by an extension, the last dot is the extension's. */
  lemma LastDotOfExtension(q: string, e: string)
    requires Sep !in q && IsExtension(e)
    ensures RFind(q + e, ExtSep) == |q|
    ensures RFind(q + e, Sep) == -1
  {
    var p := q + e;
    RFindFacts(p, ExtSep);
    RFindFacts(p, Sep);
    assert p[|q|] == e[0];
    assert forall k :: |q| < k < |p| ==> p[k] == e[k - |q|];
    assert forall k :: 0 <= k < |q| ==> p[k] == q[k];
  }

  /** A name with something other than dots before its last extension splits there. */
  lemma SplitExtOfName(q: string, e: string)
    requires Sep !in q && IsExtension(e) && !AllDots(q)
    ensures SplitExt(q + e) == (q, e)
  {
    var p := q + e;
    LastDotOfExtension(q, e);
    assert p[0..|q|] == q;
    assert p[..|q|] == q && p[|q|..] == e;
  }

  /** A name whose last extension is preceded only by dots has no extension. */
  lemma SplitExtOfDotName(q: string, e: string)
    requires Sep !in q && AllDots(q) && IsExtension(e)
    ensures SplitExt(q + e) == (q + e, [])
  {
    var p := q + e;
    LastDotOfExtension(q, e);
    assert p[0..|q|] == q;
  }

  /** `os.path.splitext('report.docx')` is `('report', '.docx')`. */
  lemma SplitExtReport()
    ensures SplitExt("report.docx") == ("report", ".docx")
  {
    assert !AllDots("report") by { assert "report"[0] != ExtSep; }
    assert "report" + ".docx" == "report.docx";
    SplitExtOfName("report", ".docx");
  }

  /** `os.path.splitext('.pdf')` is `('.pdf', '')`: a leading dot starts no extension. */
  lemma SplitExtHiddenName()
    ensures SplitExt(".pdf") == (".pdf", "")
  {
    assert "" + ".pdf" == ".pdf";
    SplitExtOfDotName("", ".pdf");
  }
}
