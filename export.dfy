/**
 * The export path of `cv_print` (cv/views.py): section toggles from the query
 * string, the selection of section records, and the assembly of the merged
 * document: the rendered main document first, then every attachment that
 * could be fetched, in the fixed order courses, experience, recognitions,
 * listings. The renderer, the HTTP client and the PDF merger are outside the
 * model: the main document is an input, the network is an oracle, and the
 * merger is a buffer of whole documents.
 */
module Export {
  import opened Wrappers
  import opened Text
  import opened Enrichment

  // ---------------------------------------------------------------
  // Section toggles (lines 84-92)
  // ---------------------------------------------------------------

  /** Which sections an export includes: `show_exp` ... `show_garage`. */
  datatype Toggles = Toggles(exp: bool, edu: bool, acad: bool, lab: bool, rec: bool, garage: bool)

  /** `request.GET`: each key present in the query string, with its last value. */
  type Query = map<string, string>

  /** `request.GET.get("from_modal") == "true"` */
  predicate FromModal(q: Query)
  {
    "from_modal" in q && q["from_modal"] == "true"
  }

  /**
   * From the export dialog, a section is included iff its key is present,
   * whatever its value; otherwise every section but the listings is included.
   */
  function ExportToggles(q: Query): (t: Toggles)
    ensures t.exp <==> !FromModal(q) || "exp" in q
    ensures t.edu <==> !FromModal(q) || "edu" in q
    ensures t.acad <==> !FromModal(q) || "acad" in q
    ensures t.lab <==> !FromModal(q) || "lab" in q
    ensures t.rec <==> !FromModal(q) || "rec" in q
    ensures t.garage <==> FromModal(q) && "garage" in q
  {
    var fromModal := FromModal(q);
    var check := (key: string) => if fromModal then key in q else true;
    Toggles(check("exp"), check("edu"), check("acad"), check("lab"), check("rec"),
            if fromModal then check("garage") else false)
  }

  // ---------------------------------------------------------------
  // Section selection (lines 95-103)
  // ---------------------------------------------------------------

  /** An academic or labour product: rendered, never fetched (it has no attachment). */
  datatype Product = Product(id: nat)

  /**
   * The visible records of each section, in the order the store returns them.
   * Listing records carry no link (`NoLink`): their model has no such field.
   */
  datatype Sections = Sections(
    experience: seq<AttachedRecord>,
    courses: seq<AttachedRecord>,
    academic: seq<Product>,
    labor: seq<Product>,
    recognitions: seq<AttachedRecord>,
    garage: seq<AttachedRecord>)

  function Section<T>(on: bool, records: seq<T>): seq<T>
  {
    if on then records else []
  }

  /** A disabled section is replaced by an empty list; an enabled one is kept whole. */
  function Select(t: Toggles, all: Sections): (s: Sections)
    ensures s.experience == (if t.exp then all.experience else [])
    ensures s.courses == (if t.edu then all.courses else [])
    ensures s.academic == (if t.acad then all.academic else [])
    ensures s.labor == (if t.lab then all.labor else [])
    ensures s.recognitions == (if t.rec then all.recognitions else [])
    ensures s.garage == (if t.garage then all.garage else [])
  {
    Sections(Section(t.exp, all.experience), Section(t.edu, all.courses),
             Section(t.acad, all.academic), Section(t.lab, all.labor),
             Section(t.rec, all.recognitions), Section(t.garage, all.garage))
  }

  // ---------------------------------------------------------------
  // Which attachments are attempted (lines 128-136)
  // ---------------------------------------------------------------

  /** `link.lower().strip().endswith('.pdf')` */
  predicate LinkLooksPdf(link: string)
  {
    EndsWith(Strip(Lower(link)), ".pdf")
  }

  /**
   * The URL `append_attachments` downloads for one record: an uploaded file
   * whatever its type, else a non-empty link that looks like a PDF (the link
   * as written, not its stripped form), else nothing.
   */
  function DownloadUrl(a: Attachment): (r: Option<string>)
    ensures Truthy(a.uploaded) ==> r == a.uploaded
    ensures a.uploaded == Some("") ==> r == None
    ensures a.uploaded.None? ==> (r.Some? <==> Truthy(a.link) && LinkLooksPdf(a.link.value))
    ensures a.uploaded.None? && r.Some? ==> r == a.link
  {
    var url :=
      if a.uploaded.Some? then a.uploaded.value
      else if Truthy(a.link) && LinkLooksPdf(a.link.value) then a.link.value
      else "";
    if url != "" then Some(url) else None
  }

  function OptionToSeq<T>(o: Option<T>): seq<T>
  {
    if o.Some? then [o.value] else []
  }

  /** The URLs requested for a list of records, in record order. */
  function Attempts(records: seq<AttachedRecord>): (urls: seq<string>)
    ensures |urls| <= |records|
  {
    if records == [] then [] else OptionToSeq(DownloadUrl(records[0].attachment)) + Attempts(records[1..])
  }

  // ---------------------------------------------------------------
  // Fetching and merging (lines 123-151)
  // ---------------------------------------------------------------

  datatype Doc = Doc(bytes: seq<bv8>)

  /** What `requests.get(url, timeout=15)` gives: a response, or an exception. */
  datatype Outcome = Reply(status: int, content: Doc) | Raised

  /**
   * The network as an oracle, and whether the merger can read a body as a
   * PDF (`merger.append` raises otherwise, inside the same handler).
   */
  datatype Network = Network(get: string -> Outcome, readable: Doc -> bool)

  /** The document one attempt contributes: a readable body of a 200 response. */
  function Fetch(net: Network, url: string): (r: Option<Doc>)
    ensures r.Some? <==> net.get(url).Reply? && net.get(url).status == 200 && net.readable(net.get(url).content)
    ensures r.Some? ==> r.value == net.get(url).content
  {
    match net.get(url)
    case Raised => None
    case Reply(status, content) => if status == 200 && net.readable(content) then Some(content) else None
  }

  /** The documents a sequence of attempts contributes, in attempt order. */
  function Collect(urls: seq<string>, net: Network): (docs: seq<Doc>)
    ensures |docs| <= |urls|
  {
    if urls == [] then [] else OptionToSeq(Fetch(net, urls[0])) + Collect(urls[1..], net)
  }

  /** The output document being built (`PdfWriter`), as the list of appended documents. */
  class Merger {
    var docs: seq<Doc>

    constructor ()
      ensures docs == []
    {
      docs := [];
    }

    method Append(d: Doc)
      modifies this
      ensures docs == old(docs) + [d]
    {
      docs := docs + [d];
    }
  }

  lemma {:induction false} AttemptsAppend(a: seq<AttachedRecord>, b: seq<AttachedRecord>)
    ensures Attempts(a + b) == Attempts(a) + Attempts(b)
  {
    if a == [] {
      assert a + b == b;
    } else {
      assert (a + b)[1..] == a[1..] + b;
      AttemptsAppend(a[1..], b);
    }
  }

  lemma {:induction false} CollectAppend(a: seq<string>, b: seq<string>, net: Network)
    ensures Collect(a + b, net) == Collect(a, net) + Collect(b, net)
  {
    if a == [] {
      assert a + b == b;
    } else {
      assert (a + b)[1..] == a[1..] + b;
      CollectAppend(a[1..], b, net);
    }
  }

  lemma AttemptsStep(records: seq<AttachedRecord>, i: nat)
    requires i < |records|
    ensures Attempts(records[..i + 1]) == Attempts(records[..i]) + OptionToSeq(DownloadUrl(records[i].attachment))
  {
    assert records[..i + 1] == records[..i] + [records[i]];
    AttemptsAppend(records[..i], [records[i]]);
  }

  lemma CollectStep(urls: seq<string>, url: string, net: Network)
    ensures Collect(urls + [url], net) == Collect(urls, net) + OptionToSeq(Fetch(net, url))
  {
    CollectAppend(urls, [url], net);
  }

  /**
   * The `try` block of one attempt: the body of a status-200 reply is
   * appended; an exception, another status or a body the merger cannot
   * read leaves the merger as it was.
   */
  method AppendDownload(merger: Merger, url: string, net: Network)
    modifies merger
    ensures merger.docs == old(merger.docs) + OptionToSeq(Fetch(net, url))
  {
    match net.get(url)
    case Raised =>
    case Reply(status, content) =>
      if status == 200 && net.readable(content) {
        merger.Append(content);
      }
  }

  /**
   * `append_attachments(queryset)`: one attempt per eligible record, in
   * order; a successful fetch is appended, a failed one (an exception or a
   * status other than 200) is skipped and the loop goes on.
   */
  method AppendAttachments(merger: Merger, records: seq<AttachedRecord>, net: Network) returns (tried: seq<string>)
    modifies merger
    ensures tried == Attempts(records)
    ensures merger.docs == old(merger.docs) + Collect(tried, net)
  {
    tried := [];
    var i := 0;
    while i < |records|
      invariant 0 <= i <= |records|
      invariant tried == Attempts(records[..i])
      invariant merger.docs == old(merger.docs) + Collect(tried, net)
    {
      AttemptsStep(records, i);
      var url := DownloadUrl(records[i].attachment);
      if url.Some? {
        CollectStep(tried, url.value, net);
        AppendDownload(merger, url.value, net);
        Regroup(old(merger.docs), Collect(tried, net), OptionToSeq(Fetch(net, url.value)));
        tried := tried + [url.value];
      }
      i := i + 1;
    }
    assert records[..i] == records;
  }

  /** The attempts of an export, in the order of lines 148-151. */
  function ExportAttempts(t: Toggles, all: Sections): (urls: seq<string>)
    ensures |urls| <= |Section(t.edu, all.courses)| + |Section(t.exp, all.experience)|
      + |Section(t.rec, all.recognitions)| + |Section(t.garage, all.garage)|
  {
    Attempts(Section(t.edu, all.courses))
    + Attempts(Section(t.exp, all.experience))
    + Attempts(Section(t.rec, all.recognitions))
    + Attempts(Section(t.garage, all.garage))
  }

  /**
   * One line of 148-151, `if show: append_attachments(records)`, continuing
   * the attempts made so far; a hidden section adds nothing.
   */
  method AppendSection(merger: Merger, ghost main: Doc, before: seq<string>, show: bool, records: seq<AttachedRecord>, net: Network)
    returns (tried: seq<string>)
    requires merger.docs == [main] + Collect(before, net)
    modifies merger
    ensures tried == before + Attempts(Section(show, records))
    ensures merger.docs == [main] + Collect(tried, net)
  {
    if show {
      var urls := AppendAttachments(merger, records, net);
      CollectAppend(before, urls, net);
      tried := before + urls;
      Regroup([main], Collect(before, net), Collect(urls, net));
    } else {
      tried := before;
      assert before + Attempts(Section(show, records)) == before;
    }
  }

  /**
   * The attachment half of `cv_print` (lines 122-154): a fresh merger
   * receives the rendered main document, then the attachments of the enabled
   * sections in the fixed order courses, experience, recognitions, listings.
   */
  method AssembleExport(main: Doc, t: Toggles, all: Sections, net: Network) returns (merged: seq<Doc>, tried: seq<string>)
    ensures tried == ExportAttempts(t, all)
    ensures merged == [main] + Collect(tried, net)
  {
    var merger := new Merger();
    merger.Append(main);
    tried := [];
    tried := AppendSection(merger, main, tried, t.edu, all.courses, net);
    assert tried == Attempts(Section(t.edu, all.courses));
    tried := AppendSection(merger, main, tried, t.exp, all.experience, net);
    tried := AppendSection(merger, main, tried, t.rec, all.recognitions, net);
    tried := AppendSection(merger, main, tried, t.garage, all.garage, net);
    merged := merger.docs;
  }

  /** Lines 105-107: the records of the three certificate sections are enriched for the template. */
  method EnrichSections(experience: seq<AttachedRecord>, courses: seq<AttachedRecord>, recognitions: seq<AttachedRecord>)
    modifies set o | o in experience + courses + recognitions
    ensures Enriched(experience + courses + recognitions)
  {
    var _ := EnrichObjects(experience);
    var _ := EnrichObjects(courses);
    assert forall o :: o in experience ==> o.Annotations() == Resolve(o.attachment);
    var _ := EnrichObjects(recognitions);
    assert forall o :: o in experience + courses ==> o.Annotations() == Resolve(o.attachment);
  }

  /** The records of the three certificate sections, the ones the template shows enriched. */
  function Certificates(s: Sections): seq<AttachedRecord>
  {
    s.experience + s.courses + s.recognitions
  }

  /**
   * `cv_print` from its query string to the merged document, with the
   * rendered main document as an input. The selected experience, course and
   * recognition records are first enriched for the template (lines 105-107);
   * the records of disabled sections are never fetched, so never touched.
   */
  method CvPrint(main: Doc, query: Query, all: Sections, net: Network) returns (merged: seq<Doc>, tried: seq<string>)
    requires NoLink(all.garage)
    modifies set o | o in Certificates(Select(ExportToggles(query), all))
    ensures tried == ExportAttempts(ExportToggles(query), all)
    ensures merged == [main] + Collect(tried, net)
    ensures Enriched(Certificates(Select(ExportToggles(query), all)))
  {
    var t := ExportToggles(query);
    var s := Select(t, all);
    EnrichSections(s.experience, s.courses, s.recognitions);
    ghost var shown := Certificates(s);
    assert Enriched(shown);
    merged, tried := AssembleExport(main, t, all, net);
    assert Enriched(shown);
  }

  // ---------------------------------------------------------------
  // Properties of the export
  // ---------------------------------------------------------------

  /** Lower-casing neither adds nor removes whitespace. */
  lemma {:induction false} LowerRStrip(s: string)
    ensures RStrip(Lower(s)) == Lower(RStrip(s))
    decreases |s|
  {
    if s != [] {
      var n := |s| - 1;
      var l := Lower(s);
      LowerCharSpace(s[n]);
      assert l[n] == LowerChar(s[n]);
      if IsSpace(s[n]) {
        LowerPrefix(s, n);
        LowerRStrip(s[..n]);
      }
    }
  }

  lemma LowerPrefix(s: string, n: nat)
    requires n <= |s|
    ensures Lower(s)[..n] == Lower(s[..n])
  {
  }

  lemma LowerCharSpace(c: char)
    ensures IsSpace(LowerChar(c)) <==> IsSpace(c)
  {
  }

  /** `lstrip` stops at the first character that is not whitespace. */
  lemma {:induction false} LStripStopsAt(x: string, k: nat)
    requires k < |x| && !IsSpace(x[k])
    ensures |LStrip(x)| >= |x| - k
  {
    if IsSpace(x[0]) {
      assert x[1..][k - 1] == x[k];
      LStripStopsAt(x[1..], k - 1);
    }
  }

  /** Leading whitespace never reaches a suffix made of non-space characters. */
  lemma LStripSuffix(x: string, suffix: string)
    requires suffix != [] && !IsSpace(suffix[0])
    ensures EndsWith(LStrip(x), suffix) <==> EndsWith(x, suffix)
  {
    var y := LStrip(x);
    if EndsWith(x, suffix) {
      var k := |x| - |suffix|;
      assert x[k] == suffix[0];
      LStripStopsAt(x, k);
      TailOfTail(x, y, |suffix|);
    } else if |suffix| <= |y| {
      TailOfTail(x, y, |suffix|);
    }
  }

  /** The last `n` characters of a suffix of `x` are the last `n` of `x`. */
  lemma TailOfTail(x: string, y: string, n: nat)
    requires |y| <= |x| && y == x[|x| - |y|..] && n <= |y|
    ensures y[|y| - n..] == x[|x| - n..]
  {
  }

  /**
   * A link is downloaded iff, once trailing whitespace is ignored, it ends in
   * ".pdf" in any letter case; leading whitespace plays no part.
   */
  lemma LinkLooksPdfMeans(link: string)
    ensures LinkLooksPdf(link) <==> EndsWithPdf(RStrip(link))
  {
    LowerRStrip(link);
    DotIsNotSpace();
    LStripSuffix(RStrip(Lower(link)), ".pdf");
  }

  lemma DotIsNotSpace()
    ensures !IsSpace(".pdf"[0])
  {
  }

  /**
   * Whatever the export downloads for a record is the locator the on-screen
   * view resolves for it; a link the view shows but the export skips is one
   * that does not look like a PDF.
   */
  lemma AttemptedIsDisplayed(a: Attachment)
    ensures DownloadUrl(a).Some? ==> FinalUrl(a) == DownloadUrl(a)
    ensures FinalUrl(a).Some? && DownloadUrl(a).None? ==>
      a.uploaded.None? && a.link == FinalUrl(a) && !LinkLooksPdf(a.link.value)
  {
  }

  /** A URL is attempted iff some record of the list resolves to it. */
  lemma {:induction false} AttemptsSound(records: seq<AttachedRecord>, url: string)
    ensures url in Attempts(records) <==>
      exists i :: 0 <= i < |records| && DownloadUrl(records[i].attachment) == Some(url)
  {
    if records != [] {
      AttemptsSound(records[1..], url);
      if exists i :: 0 <= i < |records| && DownloadUrl(records[i].attachment) == Some(url) {
        var i :| 0 <= i < |records| && DownloadUrl(records[i].attachment) == Some(url);
        if i > 0 {
          assert records[1..][i - 1] == records[i];
        }
      }
    }
  }

  /** One attempt splits the collected documents around it. */
  lemma CollectAround(urls: seq<string>, net: Network, k: nat)
    requires k < |urls|
    ensures Collect(urls, net) ==
      Collect(urls[..k], net) + OptionToSeq(Fetch(net, urls[k])) + Collect(urls[k + 1..], net)
  {
    assert urls == urls[..k] + [urls[k]] + urls[k + 1..];
    CollectAppend(urls[..k] + [urls[k]], urls[k + 1..], net);
    CollectAppend(urls[..k], [urls[k]], net);
  }

  /**
   * A failed download (an exception, a status other than 200, or a body the
   * merger cannot read) leaves out exactly that attachment and keeps every
   * other one, in order.
   */
  lemma FailureIsIsolated(urls: seq<string>, net: Network, k: nat)
    requires k < |urls| && Fetch(net, urls[k]).None?
    ensures Collect(urls, net) == Collect(urls[..k], net) + Collect(urls[k + 1..], net)
  {
    CollectAround(urls, net, k);
  }

  /** Every attempt contributes its document iff every download succeeds. */
  lemma {:induction false} CollectComplete(urls: seq<string>, net: Network)
    ensures |Collect(urls, net)| == |urls| <==>
      forall i :: 0 <= i < |urls| ==> Fetch(net, urls[i]).Some?
  {
    if urls != [] {
      CollectComplete(urls[1..], net);
      assert forall i :: 1 <= i < |urls| ==> urls[i] == urls[1..][i - 1];
    }
  }

  /** When all downloads but one succeed, the merged file has one attachment fewer than attempted. */
  lemma OneFailure(urls: seq<string>, net: Network, k: nat)
    requires k < |urls| && Fetch(net, urls[k]).None?
    requires forall i :: 0 <= i < |urls| && i != k ==> Fetch(net, urls[i]).Some?
    ensures |Collect(urls, net)| == |urls| - 1
  {
    FailureIsIsolated(urls, net, k);
    var before, after := urls[..k], urls[k + 1..];
    assert forall i :: 0 <= i < |before| ==> before[i] == urls[i];
    assert forall i :: 0 <= i < |after| ==> after[i] == urls[k + 1 + i];
    CollectComplete(before, net);
    CollectComplete(after, net);
  }

  /** Every merged attachment is the body of a successful download of an attempted URL. */
  lemma {:induction false} CollectSound(urls: seq<string>, net: Network, d: Doc)
    requires d in Collect(urls, net)
    ensures exists i :: 0 <= i < |urls| && Fetch(net, urls[i]) == Some(d)
  {
    if Fetch(net, urls[0]) != Some(d) {
      CollectSound(urls[1..], net, d);
      var i :| 0 <= i < |urls[1..]| && Fetch(net, urls[1..][i]) == Some(d);
      assert urls[1..][i] == urls[i + 1];
    }
  }

  /**
   * Without the export dialog, the attachments of courses, experience and
   * recognitions are attempted, in that order, and listings never are.
   */
  lemma DefaultExport(q: Query, all: Sections)
    requires !FromModal(q)
    ensures ExportAttempts(ExportToggles(q), all) ==
      Attempts(all.courses) + Attempts(all.experience) + Attempts(all.recognitions)
  {
    assert Attempts(Section(ExportToggles(q).garage, all.garage)) == [];
  }

  /** The records of a disabled section have no bearing on what is attempted. */
  lemma DisabledSectionsIgnored(t: Toggles, all: Sections, other: Sections)
    requires t.edu ==> other.courses == all.courses
    requires t.exp ==> other.experience == all.experience
    requires t.rec ==> other.recognitions == all.recognitions
    requires t.garage ==> other.garage == all.garage
    ensures ExportAttempts(t, other) == ExportAttempts(t, all)
  {
  }

  /** A URL is attempted iff a record of an enabled section resolves to it. */
  lemma ExportAttemptsSound(t: Toggles, all: Sections, url: string)
    ensures url in ExportAttempts(t, all) <==>
      (t.edu && url in Attempts(all.courses))
      || (t.exp && url in Attempts(all.experience))
      || (t.rec && url in Attempts(all.recognitions))
      || (t.garage && url in Attempts(all.garage))
  {
  }
}
