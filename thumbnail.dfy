/**
 * The preview-locator rewrite of `_get_cloudinary_thumbnail` (cv/views.py):
 * a URL of the image host that has exactly one "/upload/" cut gets a fixed
 * transformation segment inserted after the cut, and a trailing ".pdf" (any
 * case) becomes ".jpg". Every other URL is returned as it is, and the
 * function never raises.
 */
module Thumbnail {
  import opened Wrappers
  import opened Text

  const Cloudinary := "cloudinary"
  const UploadMarker := "/upload/"
  /** Width cap 600, automatic quality, JPEG output, first page only. */
  const Transformation := "w_600,q_auto,f_jpg,pg_1/"

  /** A trailing ".pdf" in any case becomes ".jpg"; anything else is kept. */
  function SwapPdfForJpg(u: string): (r: string)
    ensures |r| == |u| && !EndsWithPdf(r)
    ensures r == u || (EndsWithPdf(u) && r[..|u| - 4] == u[..|u| - 4] && r[|u| - 4] == '.')
    ensures EndsWithPdf(u) ==> r[|u| - 4..] == ".jpg"
  {
    if EndsWithPdf(u) then
      var r := u[..|u| - 4] + ".jpg";
      EndsWithPdfSuffix(u[..|u| - 4], ".jpg");
      assert Lower(".jpg")[1] == 'j';
      EndsWithPdfShape(u);
      r
    else
      u
  }

  /** The URL is rewritten: it names the host and `split` cuts it in exactly two. */
  predicate Rewrites(url: string)
  {
    Contains(url, Cloudinary) && |Split(url, UploadMarker)| == 2
  }

  /**
   * `_get_cloudinary_thumbnail(file_url)`. `None` and "" come back as they are.
   * When "/upload/" is present but `split` yields more than two parts, the
   * two-way unpack raises and the handler returns the URL unchanged.
   */
  function CloudinaryThumbnail(fileUrl: Option<string>): (r: Option<string>)
    ensures r.Some? <==> fileUrl.Some?
    ensures fileUrl.Some? ==> (r.value != fileUrl.value <==> Rewrites(fileUrl.value))
    ensures fileUrl.Some? && Rewrites(fileUrl.value) ==>
      |r.value| == |fileUrl.value| + |Transformation| && !EndsWithPdf(r.value)
  {
    match fileUrl
    case None => None
    case Some(u) =>
      if u == "" || !Contains(u, Cloudinary) then
        fileUrl
      else if Contains(u, UploadMarker) then
        var parts := Split(u, UploadMarker);
        if |parts| == 2 then
          assert u == parts[0] + UploadMarker + parts[1];
          Some(SwapPdfForJpg(parts[0] + UploadMarker + Transformation + parts[1]))
        else
          fileUrl
      else
        fileUrl
  }

  /** The ".pdf" swap only touches the tail, so text in front passes through. */
  lemma {:induction false} SwapAfter(x: string, y: string)
    requires |x| >= 4
    requires forall i :: |x| - 4 <= i < |x| ==> x[i] != '.'
    ensures SwapPdfForJpg(x + y) == x + SwapPdfForJpg(y)
  {
    if |y| >= 4 {
      EndsWithPdfSuffix(x, y);
      if EndsWithPdf(y) {
        var head := y[..|y| - 4];
        assert (x + y)[..|x + y| - 4] == x + head;
        assert SwapPdfForJpg(x + y) == x + head + ".jpg";
        assert SwapPdfForJpg(y) == head + ".jpg";
        Regroup(x, head, ".jpg");
      }
    } else {
      EndsWithPdfShort(x, y);
    }
  }

  /** A word without '/' that is at least as long as the marker cannot straddle it. */
  lemma {:induction false} OccurrenceInParts(a: string, b: string, w: string)
    requires |w| >= |UploadMarker|
    requires forall i :: 0 <= i < |w| ==> w[i] != '/'
    requires Contains(a + UploadMarker + b, w)
    ensures Contains(a, w) || Contains(b, w)
  {
    var s := a + UploadMarker + b;
    var m := |UploadMarker|;
    var k :| 0 <= k <= |s| - |w| && OccursAt(s, w, k);
    forall j | k <= j < k + |w| ensures s[j] != '/' {
      assert s[j] == s[k..k + |w|][j - k];
    }
    assert s[|a|] == '/' && s[|a| + m - 1] == '/';
    if k + |w| <= |a| {
      OccursPrefix(s, w, k, |a|);
      assert s[..|a|] == a;
      assert OccursAt(a, w, k);
    } else {
      assert k >= |a| + m;
      OccursShift(s, w, k - |a| - m, |a| + m);
      assert s[|a| + m..] == b;
      assert OccursAt(b, w, k - |a| - m);
    }
  }

  /** An occurrence of a dot-free word of length four or more ends before a `.pdf`-style tail. */
  lemma OccursBeforeTail(s: string, w: string, k: int)
    requires |s| >= 4 && s[|s| - 4] == '.'
    requires |w| >= 4 && forall i :: 0 <= i < |w| ==> w[i] != '.'
    requires OccursAt(s, w, k)
    ensures k + |w| <= |s| - 4
  {
    if k + |w| > |s| - 4 {
      assert false;
    }
  }

  /** Swapping ".pdf" for ".jpg" neither creates nor destroys a dot-free word. */
  lemma {:induction false} SwapKeepsWord(u: string, w: string)
    requires |w| >= 4 && forall i :: 0 <= i < |w| ==> w[i] != '.'
    ensures Contains(SwapPdfForJpg(u), w) <==> Contains(u, w)
  {
    var r := SwapPdfForJpg(u);
    if r != u {
      var n := |u| - 4;
      EndsWithPdfShape(u);
      assert r[..n] == u[..n];
      forall k | OccursAt(r, w, k) ensures OccursAt(u, w, k) {
        OccursBeforeTail(r, w, k);
        OccursPrefix(r, w, k, n);
        OccursPrefix(u, w, k, n);
      }
      forall k | OccursAt(u, w, k) ensures OccursAt(r, w, k) {
        OccursBeforeTail(u, w, k);
        OccursPrefix(r, w, k, n);
        OccursPrefix(u, w, k, n);
      }
    }
  }

  lemma HostNameHasNoSeparator()
    ensures forall i :: 0 <= i < |Cloudinary| ==> Cloudinary[i] != '/' && Cloudinary[i] != '.'
  {
  }

  /** The rewritten text still names the host. */
  lemma {:induction false} KeepsHost(a: string, b: string)
    requires Contains(a + UploadMarker + b, Cloudinary)
    ensures Contains(a + UploadMarker + (Transformation + SwapPdfForJpg(b)), Cloudinary)
  {
    var s1 := SwapPdfForJpg(b);
    HostNameHasNoSeparator();
    OccurrenceInParts(a, b, Cloudinary);
    if Contains(a, Cloudinary) {
      ContainsLeft(a, UploadMarker, Cloudinary);
      ContainsLeft(a + UploadMarker, Transformation, Cloudinary);
      ContainsLeft(a + UploadMarker + Transformation, s1, Cloudinary);
    } else {
      SwapKeepsWord(b, Cloudinary);
      ContainsRight(a + UploadMarker + Transformation, s1, Cloudinary);
    }
    Regroup(a + UploadMarker, Transformation, s1);
  }

  /** Changing what follows the first marker does not move the first marker. */
  lemma {:induction false} KeepsFirstCut(a: string, b: string, x: string)
    requires IndexOf(a + UploadMarker + b, UploadMarker) == Some(|a|)
    ensures IndexOf(a + UploadMarker + x, UploadMarker) == Some(|a|)
  {
    var u := a + UploadMarker + b;
    var r := a + UploadMarker + x;
    var m := |UploadMarker|;
    assert r[..|a| + m] == u[..|a| + m];
    assert r[|a|..|a| + m] == UploadMarker;
    forall j | 0 <= j < |a| ensures !OccursAt(r, UploadMarker, j) {
      OccursPrefix(r, UploadMarker, j, |a| + m);
      OccursPrefix(u, UploadMarker, j, |a| + m);
    }
    IndexOfUnique(r, UploadMarker, |a|);
  }

  /** Before its final '/', the segment holds no marker. */
  lemma NoMarkerInSegment(s1: string, k: int)
    requires 0 <= k < |Transformation| - 1
    ensures !OccursAt(Transformation + s1, UploadMarker, k)
  {
    assert (Transformation + s1)[k] == Transformation[k];
  }

  predicate StartsWithUpload(b: string)
  {
    |b| >= 7 && b[..7] == "upload/"
  }

  lemma UploadWordHasNoDot()
    ensures forall i :: 0 <= i < 7 ==> "upload/"[i] != '.'
  {
  }

  /** Text with a '.' among its first seven characters does not start with "upload/". */
  lemma DotBlocksUpload(b: string, n: int)
    requires 0 <= n < 7 && n < |b| && b[n] == '.'
    ensures !StartsWithUpload(b)
  {
    UploadWordHasNoDot();
    if |b| >= 7 {
      assert b[..7][n] == b[n];
    }
  }

  /** The swap leaves the first seven characters alone. */
  lemma SwapKeepsStart(b: string)
    ensures StartsWithUpload(SwapPdfForJpg(b)) <==> StartsWithUpload(b)
  {
    var s1 := SwapPdfForJpg(b);
    if s1 != b {
      EndsWithPdfShape(b);
      var n := |b| - 4;
      if n < 7 {
        DotBlocksUpload(b, n);
        DotBlocksUpload(s1, n);
      } else {
        assert s1[..7] == s1[..n][..7] && b[..7] == b[..n][..7];
      }
    }
  }

  /** A segment followed by text starting with "upload/" holds a second marker. */
  lemma RestMarkerAtSegmentEnd(s1: string)
    requires StartsWithUpload(s1)
    ensures OccursAt(Transformation + s1, UploadMarker, |Transformation| - 1)
  {
    var rest := Transformation + s1;
    var k0 := |Transformation| - 1;
    assert rest[k0] == '/';
    assert rest[k0 + 1..k0 + |UploadMarker|] == s1[..7];
  }

  /** Text that holds no marker and does not start with "upload/" gives none after the segment. */
  lemma {:induction false} RestNoMarker(s1: string)
    requires !Contains(s1, UploadMarker) && !StartsWithUpload(s1)
    ensures !Contains(Transformation + s1, UploadMarker)
  {
    var rest := Transformation + s1;
    var m := |UploadMarker|;
    var k0 := |Transformation| - 1;
    forall k | 0 <= k <= |rest| - m ensures !OccursAt(rest, UploadMarker, k) {
      if k < k0 {
        NoMarkerInSegment(s1, k);
      } else if k == k0 {
        assert rest[k0..k0 + m][1..] == s1[..7];
      } else {
        OccursShift(rest, UploadMarker, k - |Transformation|, |Transformation|);
        assert rest[|Transformation|..] == s1;
      }
    }
  }

  lemma MarkerHasNoDot()
    ensures forall i :: 0 <= i < |UploadMarker| ==> UploadMarker[i] != '.'
  {
  }

  /** After the segment, a marker appears exactly when the id part starts with "upload/". */
  lemma {:induction false} RestHasMarker(b: string)
    requires !Contains(b, UploadMarker)
    ensures Contains(Transformation + SwapPdfForJpg(b), UploadMarker) <==> StartsWithUpload(b)
  {
    var s1 := SwapPdfForJpg(b);
    MarkerHasNoDot();
    SwapKeepsWord(b, UploadMarker);
    SwapKeepsStart(b);
    if StartsWithUpload(b) {
      RestMarkerAtSegmentEnd(s1);
    } else {
      RestNoMarker(s1);
    }
  }

  /** The last four characters of the segment and of the marker hold no '.'. */
  lemma TailsWithoutDot(x: string)
    ensures forall i :: |Transformation| - 4 <= i < |Transformation| ==> Transformation[i] != '.'
    ensures forall i :: |x + UploadMarker| - 4 <= i < |x + UploadMarker| ==> (x + UploadMarker)[i] != '.'
  {
    forall i | |x + UploadMarker| - 4 <= i < |x + UploadMarker|
      ensures (x + UploadMarker)[i] != '.'
    {
      assert (x + UploadMarker)[i] == UploadMarker[i - |x|];
    }
  }

  /** The rewrite of a host URL whose first cut is known, by what follows that cut. */
  lemma {:induction false} RewriteAtCut(a: string, rest: string)
    requires Contains(a + UploadMarker + rest, Cloudinary)
    requires IndexOf(a + UploadMarker + rest, UploadMarker) == Some(|a|)
    ensures CloudinaryThumbnail(Some(a + UploadMarker + rest)) ==
      if Contains(rest, UploadMarker) then Some(a + UploadMarker + rest)
      else Some(a + UploadMarker + (Transformation + SwapPdfForJpg(rest)))
  {
    var u := a + UploadMarker + rest;
    SplitTwo(u, UploadMarker);
    assert u[|a| + |UploadMarker|..] == rest;
    if !Contains(rest, UploadMarker) {
      assert Split(u, UploadMarker) == [a, rest];
      assert a + UploadMarker + Transformation + rest == a + UploadMarker + (Transformation + rest);
      TailsWithoutDot(a);
      SwapAfter(a + UploadMarker, Transformation + rest);
      SwapAfter(Transformation, rest);
    }
  }

  /**
   * No guard against re-application: rewriting a rewritten URL inserts the
   * segment a second time, unless the id part begins with "upload/". Then the
   * second `split` finds two cuts and the URL is left alone.
   */
  lemma {:induction false} RewriteTwice(base: string, id: string)
    requires Contains(base + UploadMarker + id, Cloudinary)
    requires IndexOf(base + UploadMarker + id, UploadMarker) == Some(|base|)
    requires !Contains(id, UploadMarker)
    ensures var once := CloudinaryThumbnail(Some(base + UploadMarker + id));
      once == Some(base + UploadMarker + (Transformation + SwapPdfForJpg(id)))
      && CloudinaryThumbnail(once) ==
        if StartsWithUpload(id) then once
        else Some(base + UploadMarker + (Transformation + (Transformation + SwapPdfForJpg(id))))
  {
    var s1 := SwapPdfForJpg(id);
    var rest := Transformation + s1;
    RewriteAtCut(base, id);
    KeepsHost(base, id);
    KeepsFirstCut(base, id, rest);
    RestHasMarker(id);
    RewriteAtCut(base, rest);
    if !StartsWithUpload(id) {
      TailsWithoutDot(base);
      SwapAfter(Transformation, s1);
    }
  }

  /**
   * The rewritten form: the URL is `base + "/upload/" + id`, its first marker
   * is that cut, neither part holds the marker, and the preview is
   * `base + "/upload/" + segment + id` with the ".pdf" of `id` swapped for ".jpg".
   */
  lemma {:induction false} RewriteShape(url: string)
    requires Rewrites(url)
    ensures var p := Split(url, UploadMarker);
      url == p[0] + UploadMarker + p[1]
      && IndexOf(url, UploadMarker) == Some(|p[0]|)
      && !Contains(p[0], UploadMarker) && !Contains(p[1], UploadMarker)
      && CloudinaryThumbnail(Some(url)) == Some(p[0] + UploadMarker + (Transformation + SwapPdfForJpg(p[1])))
  {
    var p := Split(url, UploadMarker);
    SplitTwo(url, UploadMarker);
    assert url == p[0] + UploadMarker + p[1];
    RewriteAtCut(p[0], p[1]);
  }
}
