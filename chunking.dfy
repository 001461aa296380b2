/**
 * The upload of one attachment's page images (pdf_bot3.py:147-156): the
 * list is cut into slices `image_paths[i:i + 10]` for `i` in
 * `range(0, len(image_paths), 10)`, each sent as one message; only the
 * slice at `i == 0` carries the caption.
 */
module Chunking {
  import opened Optional
  import opened Events

  const ChunkSize: nat := 10

  function Min(a: int, b: int): int
  {
    if a <= b then a else b
  }

  /** The slices of `s` of `ChunkSize` elements each; the last one may be shorter. */
  function Chunks<T>(s: seq<T>): seq<seq<T>>
    decreases |s|
  {
    if s == [] then []
    else if |s| <= ChunkSize then [s]
    else [s[..ChunkSize]] + Chunks(s[ChunkSize..])
  }

  function Flatten<T>(ss: seq<seq<T>>): seq<T>
  {
    if ss == [] then [] else ss[0] + Flatten(ss[1..])
  }

  /** Sending the chunks one after another sends the whole list, in order. */
  lemma {:induction false} FlattenChunks<T>(s: seq<T>)
    ensures Flatten(Chunks(s)) == s
  {
    if |s| > ChunkSize {
      FlattenChunks(s[ChunkSize..]);
      assert s == s[..ChunkSize] + s[ChunkSize..];
    }
  }

  /** There are `ceil(n / 10)` chunks. */
  lemma {:induction false} ChunkCount<T>(s: seq<T>)
    ensures |Chunks(s)| == (|s| + ChunkSize - 1) / ChunkSize
  {
    if |s| > ChunkSize {
      ChunkCount(s[ChunkSize..]);
    }
  }

  /** The slice `s[i : i + 10]` that `range(0, n, 10)` visits at `i = 10 * k` is chunk `k`. */
  lemma {:induction false} ChunkAt<T>(s: seq<T>, k: nat)
    requires k * ChunkSize < |s|
    ensures k < |Chunks(s)|
    ensures Chunks(s)[k] == s[k * ChunkSize..Min(k * ChunkSize + ChunkSize, |s|)]
  {
    if k > 0 {
      var t := s[ChunkSize..];
      ChunkAt(t, k - 1);
      assert Chunks(s)[k] == Chunks(t)[k - 1];
      assert t[(k - 1) * ChunkSize..Min((k - 1) * ChunkSize + ChunkSize, |t|)]
          == s[k * ChunkSize..Min(k * ChunkSize + ChunkSize, |s|)];
    }
  }

  /** Every element of every chunk comes from the list. */
  lemma {:induction false} ChunkMembers<T>(s: seq<T>)
    ensures forall k, j :: 0 <= k < |Chunks(s)| && 0 <= j < |Chunks(s)[k]| ==> Chunks(s)[k][j] in s
  {
    if |s| > ChunkSize {
      var t := s[ChunkSize..];
      ChunkMembers(t);
      var cs := Chunks(s);
      forall k, j | 0 <= k < |cs| && 0 <= j < |cs[k]| ensures cs[k][j] in s {
        if k == 0 {
          assert cs[k][j] == s[j];
        } else {
          assert cs[k] == Chunks(t)[k - 1];
          assert Chunks(t)[k - 1][j] in t;
        }
      }
    }
  }

  /** Every chunk holds 1 to 10 elements, and all but the last exactly 10. */
  lemma {:induction false} ChunkSizes<T>(s: seq<T>)
    ensures forall k :: 0 <= k < |Chunks(s)| ==> 0 < |Chunks(s)[k]| <= ChunkSize
    ensures forall k :: 0 <= k < |Chunks(s)| - 1 ==> |Chunks(s)[k]| == ChunkSize
  {
    if |s| > ChunkSize {
      ChunkSizes(s[ChunkSize..]);
      var cs := Chunks(s);
      assert forall k :: 1 <= k < |cs| ==> cs[k] == Chunks(s[ChunkSize..])[k - 1];
    }
  }

  /** Twenty-three images go out in chunks of 10, 10 and 3. */
  lemma TwentyThreeImages<T>(s: seq<T>)
    requires |s| == 23
    ensures |Chunks(s)| == 3
    ensures |Chunks(s)[0]| == 10 && |Chunks(s)[1]| == 10 && |Chunks(s)[2]| == 3
  {
    assert Chunks(s) == [s[..10]] + Chunks(s[10..]);
    assert Chunks(s[10..]) == [s[10..][..10]] + Chunks(s[10..][10..]);
    assert Chunks(s[10..][10..]) == [s[10..][10..]];
  }

  /** The messages that upload `paths` for the attachment `filename`: the first one captioned. */
  function UploadSends(dest: Dest, filename: string, paths: seq<string>): seq<Send>
  {
    var cs := Chunks(paths);
    seq(|cs|, k requires 0 <= k < |cs| =>
      Send(dest, if k == 0 then ImagesCaption(filename) else Continuation, cs[k]))
  }

  /**
   * The uploads carry exactly the given images, in order, all to `dest`,
   * with the caption on the first message and on no other.
   */
  lemma UploadSendsFacts(dest: Dest, filename: string, paths: seq<string>)
    ensures var u := UploadSends(dest, filename, paths);
            |u| == (|paths| + ChunkSize - 1) / ChunkSize &&
            (forall k :: 0 <= k < |u| ==> u[k].dest == dest && 0 < |u[k].files| <= ChunkSize) &&
            (forall k :: 0 <= k < |u| ==> (u[k].text == ImagesCaption(filename) <==> k == 0)) &&
            (forall k :: 0 <= k < |u| ==> u[k].text.ImagesCaption? || u[k].text.Continuation?) &&
            Flatten(seq(|u|, k requires 0 <= k < |u| => u[k].files)) == paths
  {
    var u := UploadSends(dest, filename, paths);
    ChunkCount(paths);
    ChunkSizes(paths);
    FlattenChunks(paths);
    assert seq(|u|, k requires 0 <= k < |u| => u[k].files) == Chunks(paths);
  }

  /** Every image an upload carries is one of the given images. */
  lemma UploadImagesFrom(dest: Dest, filename: string, paths: seq<string>)
    ensures var u := UploadSends(dest, filename, paths);
            forall k, j :: 0 <= k < |u| && 0 <= j < |u[k].files| ==> u[k].files[j] in paths
  {
    ChunkMembers(paths);
  }

  /**
   * The loop of lines 147-156. `failAt` is the chunk whose send raises, if
   * any; the chunks before it are delivered and the loop stops there.
   */
  method UploadChunks(dest: Dest, filename: string, paths: seq<string>, failAt: Option<nat>)
    returns (sends: seq<Send>, raised: bool)
    ensures raised <==> failAt.Some? && failAt.value < |Chunks(paths)|
    ensures sends == UploadSends(dest, filename, paths)[..if raised then failAt.value else |Chunks(paths)|]
  {
    ChunkCount(paths);
    var all := UploadSends(dest, filename, paths);
    sends := [];
    raised := false;
    var i := 0;
    while i < |paths|
      invariant i % ChunkSize == 0 && i / ChunkSize <= |Chunks(paths)|
      invariant failAt.Some? ==> i / ChunkSize <= failAt.value
      invariant sends == all[..i / ChunkSize]
    {
      var chunk := paths[i..Min(i + ChunkSize, |paths|)];
      if chunk != [] {
        if failAt == Some(i / ChunkSize) {
          raised := true;
          return;
        }
        ChunkAt(paths, i / ChunkSize);
        if i == 0 {
          sends := sends + [Send(dest, ImagesCaption(filename), chunk)];
        } else {
          sends := sends + [Send(dest, Continuation, chunk)];
        }
        assert all[..i / ChunkSize + 1] == all[..i / ChunkSize] + [all[i / ChunkSize]];
      }
      i := i + ChunkSize;
    }
  }
}
