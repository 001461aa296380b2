/**
 * The page images of one attachment (pdf_bot3.py:141-145): page `i` is
 * saved as `<stem>_page_<i>.png` in the working directory, where `<stem>`
 * is `os.path.splitext(attachment.filename)[0]`.
 */
module Pages {
  import opened Optional
  import opened PyStr
  import opened PosixPath

  /** `f'{base_filename}_page_{i}.png'` */
  function PageName(stem: string, i: nat): string
  {
    stem + "_page_" + Decimal(i) + ".png"
  }

  /** The path of page `i` of the attachment named `filename`. */
  function PagePath(dir: string, filename: string, i: nat): string
  {
    Join(dir, PageName(Stem(filename), i))
  }

  /** The paths of the first `n` pages, in page order. */
  function PagePaths(dir: string, filename: string, n: nat): (r: seq<string>)
    ensures |r| == n
  {
    seq(n, i requires 0 <= i < n => PagePath(dir, filename, i))
  }

  /** One more page adds its path at the end. */
  lemma PagePathsSnoc(dir: string, filename: string, n: nat)
    ensures PagePaths(dir, filename, n + 1) == PagePaths(dir, filename, n) + [PagePath(dir, filename, n)]
  {
  }

  /** The paths of the first `k` pages are the first `k` of the paths of `n >= k` pages. */
  lemma PagePathsPrefix(dir: string, filename: string, k: nat, n: nat)
    requires k <= n
    ensures PagePaths(dir, filename, k) == PagePaths(dir, filename, n)[..k]
  {
  }

  /** The page number can be read back from a page name: the number between `_page_` and `.png`. */
  lemma PageNameIndex(stem: string, i: nat)
    ensures var name := PageName(stem, i);
            |stem| + 6 <= |name| - 4 && AllDigits(name[|stem| + 6..|name| - 4]) &&
            ParseDecimal(name[|stem| + 6..|name| - 4]) == i
  {
    var name := PageName(stem, i);
    assert name[|stem| + 6..|name| - 4] == Decimal(i);
    ParseDecimalOfDecimal(i);
  }

  /** Different pages get different names. */
  lemma PageNameInjective(stem: string, i: nat, j: nat)
    requires PageName(stem, i) == PageName(stem, j)
    ensures i == j
  {
    PageNameIndex(stem, i);
    PageNameIndex(stem, j);
  }

  /** Different pages get different paths, so no page image overwrites another. */
  lemma PagePathsDistinct(dir: string, filename: string, n: nat)
    ensures forall i, j :: 0 <= i < j < n ==> PagePaths(dir, filename, n)[i] != PagePaths(dir, filename, n)[j]
  {
    forall i, j | 0 <= i < j < n ensures PagePath(dir, filename, i) != PagePath(dir, filename, j) {
      var stem := Stem(filename);
      var a, b := PageName(stem, i), PageName(stem, j);
      if PagePath(dir, filename, i) == PagePath(dir, filename, j) {
        assert StartsWith(a, [Sep]) <==> StartsWith(b, [Sep]) by {
          assert a[0] == b[0] by {
            if stem == [] { assert a[0] == '_' == b[0]; } else { assert a[0] == stem[0] == b[0]; }
          }
        }
        JoinInjective(dir, a, b);
        PageNameInjective(stem, i, j);
      }
    }
  }

  /** For an attachment name without separators, the file uploaded for page `i` is named `<stem>_page_<i>.png`. */
  lemma PagePathBasename(dir: string, filename: string, i: nat)
    requires Sep !in filename
    ensures Basename(PagePath(dir, filename, i)) == PageName(Stem(filename), i)
  {
    var stem := Stem(filename);
    var name := PageName(stem, i);
    NoSepInStem(filename);
    var digits := Decimal(i);
    assert forall k :: 0 <= k < |digits| ==> digits[k] != Sep;
    assert forall k :: 0 <= k < |name| ==> name[k] != Sep by {
      forall k | 0 <= k < |name| ensures name[k] != Sep {
        if k < |stem| {
          assert name[k] == stem[k];
        } else if k < |stem| + 6 {
          assert name[k] == "_page_"[k - |stem|];
        } else if k < |stem| + 6 + |digits| {
          assert name[k] == digits[k - |stem| - 6];
        } else {
          assert name[k] == ".png"[k - |stem| - 6 - |digits|];
        }
      }
    }
    BasenameOfJoin(dir, name);
  }

  /**
   * The loop of lines 141-145: save each rendered page and collect its path.
   * `failAt` is the page whose `image.save` raises, if any; the pages before
   * it are saved and the loop stops there.
   */
  method SavePageImages(dir: string, filename: string, pages: nat, failAt: Option<nat>)
    returns (paths: seq<string>, raised: bool)
    ensures raised <==> failAt.Some? && failAt.value < pages
    ensures paths == PagePaths(dir, filename, if raised then failAt.value else pages)
  {
    paths := [];
    raised := false;
    var i := 0;
    while i < pages
      invariant 0 <= i <= pages
      invariant failAt.Some? ==> i <= failAt.value
      invariant paths == PagePaths(dir, filename, i)
    {
      var baseFilename := SplitExt(filename).0;
      var imagePath := Join(dir, PageName(baseFilename, i));
      if failAt == Some(i) {
        raised := true;
        return;
      }
      PagePathsSnoc(dir, filename, i);
      paths := paths + [imagePath];
      i := i + 1;
    }
  }
}
