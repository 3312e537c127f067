/**
 * Attachment resolution for display (`_enrich_objects`) and the direct
 * document redirect (`doc_redirect`) of cv/views.py. A section record carries
 * an optional uploaded file, of which only its storage URL matters here, and
 * an optional free-text link (`rutacertificado`); listing records have no link
 * field, so theirs is always `None`.
 */
module Enrichment {
  import opened Wrappers
  import opened Text
  import opened Thumbnail
  import opened Redirects

  /** `archivo_digital.url` when a file is attached, and `rutacertificado`. */
  datatype Attachment = Attachment(uploaded: Option<string>, link: Option<string>)

  /** The three presentation fields `_enrich_objects` sets on a record. */
  datatype Resolved = Resolved(finalUrl: Option<string>, isPdf: bool, thumbnail: Option<string>)

  /** Python truthiness of an optional string: present and non-empty. */
  predicate Truthy(s: Option<string>)
  {
    s.Some? && s.value != ""
  }

  /**
   * The locator `_enrich_objects` settles on: the uploaded file's URL when a
   * file is attached, otherwise a non-empty link, otherwise nothing. An
   * attached file shadows the link even in the degenerate case of an empty
   * URL, because the `elif` is never reached.
   */
  function FinalUrl(a: Attachment): (r: Option<string>)
    ensures Truthy(a.uploaded) ==> r == a.uploaded
    ensures a.uploaded == Some("") ==> r == None
    ensures a.uploaded.None? ==> r == if Truthy(a.link) then a.link else None
    ensures r.Some? ==> r.value != "" && (r == a.uploaded || r == a.link)
  {
    var chosen :=
      if a.uploaded.Some? then a.uploaded.value
      else if Truthy(a.link) then a.link.value
      else "";
    if chosen != "" then Some(chosen) else None
  }

  /** The record's derived fields, as `_enrich_objects` assigns them. */
  function Resolve(a: Attachment): (r: Resolved)
    ensures r.finalUrl == FinalUrl(a)
    ensures r.finalUrl.None? ==> !r.isPdf && r.thumbnail.None?
    ensures r.finalUrl.Some? ==>
      r.isPdf == EndsWithPdf(r.finalUrl.value)
      && r.thumbnail.Some?
      && (r.thumbnail == r.finalUrl <==> !Rewrites(r.finalUrl.value))
    ensures r.thumbnail == CloudinaryThumbnail(r.finalUrl)
  {
    var url := FinalUrl(a);
    if url.Some? then
      Resolved(url, EndsWithPdf(url.value), CloudinaryThumbnail(url))
    else
      Resolved(None, false, None)
  }

  /** A record object whose presentation fields are assigned in place. */
  class AttachedRecord {
    const attachment: Attachment
    var finalUrl: Option<string>
    var isPdf: bool
    var thumbnail: Option<string>

    constructor (attachment: Attachment)
      ensures this.attachment == attachment
      ensures finalUrl == None && !isPdf && thumbnail == None
    {
      this.attachment := attachment;
      finalUrl, isPdf, thumbnail := None, false, None;
    }

    function Annotations(): Resolved
      reads this
    {
      Resolved(finalUrl, isPdf, thumbnail)
    }
  }

  /** Every record of the sequence carries the fields its attachment resolves to. */
  predicate Enriched(objects: seq<AttachedRecord>)
    reads set o | o in objects
  {
    forall o :: o in objects ==> o.Annotations() == Resolve(o.attachment)
  }

  /**
   * `_enrich_objects(objects)`: every record gets its derived fields, and the
   * same sequence is returned, in the same order.
   */
  method EnrichObjects(objects: seq<AttachedRecord>) returns (r: seq<AttachedRecord>)
    modifies set o | o in objects
    ensures r == objects
    ensures Enriched(objects)
  {
    var i := 0;
    while i < |objects|
      invariant 0 <= i <= |objects|
      invariant forall j :: 0 <= j < i ==> objects[j].Annotations() == Resolve(objects[j].attachment)
    {
      var obj := objects[i];
      var urlFinal := FinalUrl(obj.attachment);
      if urlFinal.Some? {
        obj.finalUrl := urlFinal;
        obj.isPdf := EndsWithPdf(urlFinal.value);
        obj.thumbnail := CloudinaryThumbnail(urlFinal);
      } else {
        obj.finalUrl := None;
        obj.isPdf := false;
        obj.thumbnail := None;
      }
      i := i + 1;
    }
    r := objects;
  }

  /** Listing records: `Ventagarage` has no `rutacertificado`, so `getattr` always gives `None`. */
  predicate NoLink(objects: seq<AttachedRecord>)
  {
    forall o :: o in objects ==> o.attachment.link.None?
  }

  /** The record kinds `doc_redirect` serves. */
  datatype Kind = Experience | Courses | Recognitions | Garage

  /** The `MODELS` table of `doc_redirect`. */
  function KindOf(model: string): (k: Option<Kind>)
    ensures k == Some(Experience) <==> model == "exp"
    ensures k == Some(Courses) <==> model == "cursos"
    ensures k == Some(Recognitions) <==> model == "rec"
    ensures k == Some(Garage) <==> model == "garage"
    ensures k.Some? <==> model in {"exp", "cursos", "rec", "garage"}
  {
    if model == "exp" then Some(Experience)
    else if model == "cursos" then Some(Courses)
    else if model == "rec" then Some(Recognitions)
    else if model == "garage" then Some(Garage)
    else None
  }

  /** `getattr(obj, 'rutacertificado', None)`: a listing has no such field. */
  function LinkOf(kind: Kind, a: Attachment): Option<string>
  {
    if kind == Garage then None else a.link
  }

  /**
   * `doc_redirect(request, model, pk)`, with the record table given as a map
   * from kind and primary key to the record's attachment fields. Each target
   * goes through Django's `redirect`, which can itself fail.
   */
  function DocRedirect(model: string, pk: int, store: map<(Kind, int), Attachment>): (r: Response)
    ensures r == NotFound <==> KindOf(model).None? || (KindOf(model).value, pk) !in store
    ensures r != NotFound ==>
      var kind := KindOf(model).value;
      var a := store[(kind, pk)];
      (a.uploaded.Some? ==> r == Redirect(a.uploaded.value))
      && (a.uploaded.None? && kind != Garage && Truthy(a.link) ==> r == Redirect(a.link.value))
      && (a.uploaded.None? && (kind == Garage || !Truthy(a.link)) ==> r == RedirectTo("/cv/"))
  {
    match KindOf(model)
    case None => NotFound
    case Some(kind) =>
      if (kind, pk) !in store then NotFound
      else
        var a := store[(kind, pk)];
        var link := LinkOf(kind, a);
        if a.uploaded.Some? then Redirect(a.uploaded.value)
        else if Truthy(link) then Redirect(link.value)
        else HomeRedirect(); Redirect("home")
  }

  /**
   * The redirect sends the client where the on-screen view points: through
   * `redirect` to the enriched `final_url` when there is one, and to the
   * front page when there is none.
   */
  lemma RedirectAgreesWithEnrichment(model: string, pk: int, store: map<(Kind, int), Attachment>)
    requires KindOf(model).Some? && (KindOf(model).value, pk) in store
    requires store[(KindOf(model).value, pk)].uploaded != Some("")
    requires KindOf(model).value == Garage ==> store[(KindOf(model).value, pk)].link.None?
    ensures var url := Resolve(store[(KindOf(model).value, pk)]).finalUrl;
      DocRedirect(model, pk, store) == if url.Some? then Redirect(url.value) else RedirectTo("/cv/")
  {
  }

  /** An attached file served from a web address (http or https, any case) is followed as stored. */
  lemma UploadedFileFollowed(model: string, pk: int, store: map<(Kind, int), Attachment>, scheme: string, rest: string)
    requires KindOf(model).Some? && (KindOf(model).value, pk) in store
    requires IsSchemeText(scheme) && Lower(scheme) in {"http", "https"}
    requires '/' in rest
    requires store[(KindOf(model).value, pk)].uploaded == Some(scheme + ":" + rest)
    ensures DocRedirect(model, pk, store) == RedirectTo(scheme + ":" + rest)
  {
    WebLinkFollowed(scheme, rest);
  }
}
