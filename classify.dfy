/**
 * Which attachments the bot takes on (pdf_bot3.py:17, 70-74) and which
 * branch of the per-attachment loop each one takes (lines 109-124).
 */
module Classify {
  import opened PyStr
  import opened Events

  const OfficeExtensions: seq<string> := [".doc", ".docx", ".xls", ".xlsx", ".ppt", ".pptx"]
  const PdfExtension: string := ".pdf"

  /** `filename.lower().endswith(OFFICE_EXTENSIONS)` */
  predicate IsOfficeName(name: string)
  {
    EndsWithAny(Lower(name), OfficeExtensions)
  }

  /** `filename.lower().endswith('.pdf')` */
  predicate IsPdfName(name: string)
  {
    EndsWith(Lower(name), PdfExtension)
  }

  /** The filter test of line 73. */
  predicate Qualifies(name: string)
  {
    IsPdfName(name) || IsOfficeName(name)
  }

  /** No name is both a PDF and an Office document: the last letters differ. */
  lemma PdfIsNotOffice(name: string)
    ensures IsPdfName(name) ==> !IsOfficeName(name)
  {
    var low := Lower(name);
    if IsPdfName(name) {
      assert low[|low| - 1] == 'f';
      forall k | 0 <= k < |OfficeExtensions| ensures !EndsWith(low, OfficeExtensions[k]) {
        var e := OfficeExtensions[k];
        assert e[|e| - 1] != 'f';
      }
    }
  }

  datatype Branch = OfficeBranch | PdfBranch | UnsupportedBranch

  /** The `if`/`elif`/`else` of lines 110-124. */
  function BranchOf(name: string): (b: Branch)
    ensures b == OfficeBranch <==> IsOfficeName(name)
    ensures b == PdfBranch <==> IsPdfName(name)
    ensures b == UnsupportedBranch <==> !Qualifies(name)
  {
    PdfIsNotOffice(name);
    if IsOfficeName(name) then OfficeBranch
    else if IsPdfName(name) then PdfBranch
    else UnsupportedBranch
  }

  /** `attachments_to_process`: the qualifying attachments, in their original order. */
  function Kept(atts: seq<Attachment>): seq<Attachment>
  {
    if atts == [] then []
    else (if Qualifies(atts[0].filename) then [atts[0]] else []) + Kept(atts[1..])
  }

  /** Filtering a concatenation filters each part: the kept list keeps the original order. */
  lemma {:induction false} KeptAppend(xs: seq<Attachment>, ys: seq<Attachment>)
    ensures Kept(xs + ys) == Kept(xs) + Kept(ys)
  {
    if xs != [] {
      assert (xs + ys)[0] == xs[0];
      assert (xs + ys)[1..] == xs[1..] + ys;
      KeptAppend(xs[1..], ys);
    } else {
      assert xs + ys == ys;
    }
  }

  /** An attachment is kept exactly when it is present and its name qualifies. */
  lemma {:induction false} KeptMembers(atts: seq<Attachment>)
    ensures forall x :: x in Kept(atts) <==> x in atts && Qualifies(x.filename)
  {
    if atts != [] {
      KeptMembers(atts[1..]);
      assert atts == [atts[0]] + atts[1..];
    }
  }

  /** The number of qualifying attachments, which the start notice reports. */
  function CountQualifying(atts: seq<Attachment>): nat
  {
    if atts == [] then 0
    else (if Qualifies(atts[0].filename) then 1 else 0) + CountQualifying(atts[1..])
  }

  lemma {:induction false} KeptLength(atts: seq<Attachment>)
    ensures |Kept(atts)| == CountQualifying(atts)
  {
    if atts != [] {
      KeptLength(atts[1..]);
    }
  }

  /** The loop of lines 70-74. */
  method FilterAttachments(atts: seq<Attachment>) returns (kept: seq<Attachment>)
    ensures kept == Kept(atts)
    ensures forall k :: 0 <= k < |kept| ==> Qualifies(kept[k].filename)
  {
    kept := [];
    for i := 0 to |atts|
      invariant kept == Kept(atts[..i])
      invariant forall k :: 0 <= k < |kept| ==> Qualifies(kept[k].filename)
    {
      var att := atts[i];
      var filenameLower := Lower(att.filename);
      if EndsWith(filenameLower, PdfExtension) || EndsWithAny(filenameLower, OfficeExtensions) {
        kept := kept + [att];
      }
      KeptAppend(atts[..i], [att]);
      assert atts[..i + 1] == atts[..i] + [att];
    }
    assert atts[..|atts|] == atts;
  }

  /** Mixed-case names are recognised, names that merely contain an extension are not. */
  lemma QualifyingExamples()
    ensures Qualifies("Report.PDF") && IsOfficeName("slides.PptX")
    ensures !Qualifies("notes.pdf.txt")
  {
    assert Lower("Report.PDF")[6..] == ".pdf";
    assert Lower("slides.PptX")[6..] == OfficeExtensions[5];
    var low := Lower("notes.pdf.txt");
    assert low[|low| - 1] == 't';
    assert low[|low| - 2] == 'x';
  }
}
