# CV-Proyecto: a verified model of the CV views and record validation

CV-Proyecto is a Django site that publishes one person's curriculum vitae.
Its sections are experience, courses, academic and labour products, awards
and a second-hand listings page ("venta de garage"). It can also export the
CV as one PDF: a rendered main document followed by the certificates
attached to the records. This project models, in Dafny, the logic
around those pages:

- **Thumbnail** (`thumbnail.dfy`): the preview-locator rewrite of image-host
  URLs, `_get_cloudinary_thumbnail`.
- **Enrichment** (`enrichment.dfy`):
  - how a record's attachment is resolved for display, `_enrich_objects`;
  - the direct document redirect, `doc_redirect`.
- **Redirects** (`redirect.dfy`): Django's `redirect(to)` for the strings
  `doc_redirect` hands it: a route name is reversed, a word that is neither a
  route nor a path fails, and a location with a scheme other than http,
  https or ftp is refused. An unresolvable word is a server error (500); a
  refused scheme is a bad request (400).
- **Export** (`export.dfy`), the export path of `cv_print`:
  - the section toggles read from the query string;
  - the selection of section records;
  - which attachments are downloaded;
  - the order in which the downloaded files are merged;
  - why a failed download only drops its own file.
- **Validators** (`validators.dfy`): the field validators of cv/models.py
  (dates, age, ten-digit numbers, positive amounts) and the upload-path
  helper `_upload_uuid`.
- **Records** (`records.dfy`): each model's `clean()`, the `full_clean`
  sequence, and `CleanSaveMixin.save`, which refuses to write a record that
  does not validate.
- **Text** (`text.dfy`) and **Wrappers** (`wrappers.dfy`): the Python string
  operations the code relies on, with the same semantics as Python (`split`
  scans left to right and does not overlap), and `Option`.

Pure code is modelled as functions. The two loops that assign fields in place
are methods over classes, each proved against a function that specifies it:

- `_enrich_objects` sets fields on record objects;
- `append_attachments` appends to the shared PDF writer.

So is `save`, which validates, normalises in place, then writes.

Inputs are parameters:

- the current date and the uuid's hex;
- the network, as an oracle from URL to response or exception;
- the PDF reader's acceptance of a body;
- the rendered main document.

The image-host test is a substring test: any URL that contains
"cloudinary" anywhere is rewritten, not only one whose host is the image
host. The model does the same.

## Model

| member | source | states |
|---|---|---|
| Text.IndexOf | cv/views.py:17 | `"/upload/" in url` and where it first occurs: the first occurrence, and `None` exactly when there is none |
| Text.Split | cv/views.py:18 | `str.split` with a separator: at least one part, joining the parts gives the input back, no part holds the separator, there is one part iff the separator does not occur, and every cut is the first occurrence in what remains (leftmost, non-overlapping) |
| Text.SplitTwo | cv/views.py:17-18 | the two-way unpack succeeds iff there is a first cut and no cut after it; the parts are then the text before and after that cut |
| Text.Lower | cv/views.py:20 | `lower()` keeps the length and maps each character |
| Text.RStrip | cv/views.py:133 | `rstrip()` removes exactly the trailing whitespace |
| Text.LStrip | cv/views.py:133 | `lstrip()` removes exactly the leading whitespace |
| Text.Strip | cv/views.py:133 | `strip()` keeps a piece of the text that is empty or starts and ends with a non-whitespace character, and everything it cuts off before and after that piece is whitespace |
| Text.EndsWithPdfShape | cv/views.py:20 | a ".pdf" ending in any case is a '.' followed by three characters, none of which is '.', '/' or whitespace |
| Text.Capitalize | cv/models.py:286 | the first character is upper-cased and the rest lower-cased, with the length kept |
| Text.CapitalizeIgnoresCase | cv/models.py:286 | capitalising a lower-cased text gives the same as capitalising the text |
| Text.CapitalizeIdempotent | cv/models.py:286-288 | capitalising a capitalised condition changes nothing |
| Thumbnail.SwapPdfForJpg | cv/views.py:20-21 | a trailing ".pdf" in any case becomes ".jpg"; the result never ends in ".pdf", keeps the length, and everything before the ending is untouched; any other URL is returned as it is |
| Thumbnail.CloudinaryThumbnail | cv/views.py:14-24 | `None` stays `None`. The URL changes iff it contains "cloudinary" and splits at "/upload/" into exactly two parts. Empty, host-less and marker-less URLs come back unchanged, and so do URLs that `split` cuts into three or more parts; nothing raises. A second marker that overlaps the first ("/upload/upload/") is not a cut for `split`, so such a URL is rewritten. A rewritten URL is longer by the segment and never ends in ".pdf" |
| Thumbnail.RewriteShape | cv/views.py:17-22 | a rewritten URL is `base + "/upload/" + id`, with neither part holding the marker, and its preview is `base + "/upload/w_600,q_auto,f_jpg,pg_1/" + id` with a ".pdf" ending of `id` swapped for ".jpg" |
| Thumbnail.RewriteAtCut | cv/views.py:17-24 | with the first cut known, the rewrite either inserts the segment after it (no later marker) or leaves the URL alone (a later marker, unpack fails) |
| Thumbnail.RewriteTwice | cv/views.py:17-21 | nothing guards against a second application: rewriting again inserts the segment a second time, except when the id begins with "upload/", where the second split finds two cuts and returns the URL unchanged |
| Enrichment.FinalUrl | cv/views.py:28-30 | the attached file's URL takes precedence, then a non-empty link, else nothing; a result is always non-empty and is one of the two |
| Enrichment.Resolve | cv/views.py:32-39 | without a final URL: not a PDF and no thumbnail. With one: `is_pdf` is the case-insensitive ".pdf" test, and the thumbnail is the rewrite of the URL, differing from it iff the URL is rewritten |
| Enrichment.EnrichObjects | cv/views.py:26-40 | every record of the sequence gets exactly the resolved fields, and the same sequence is returned in the same order |
| Enrichment.KindOf | cv/views.py:43-44 | "exp" names the experience table, "cursos" the courses, "rec" the awards and "garage" the listings; no other key is known |
| Enrichment.DocRedirect | cv/views.py:42-49 | not-found iff the kind is unknown or the record is missing; otherwise an attached file's URL goes through `redirect`, else a non-empty link does (never for a listing, which has no link field), else the client goes to the front page "/cv/" |
| Enrichment.RedirectAgreesWithEnrichment | cv/views.py:26-49 | the redirect goes through `redirect` to where the enriched `final_url` points, and to the front page when there is none |
| Enrichment.UploadedFileFollowed | cv/views.py:47 | an attached file stored at an http or https address is redirected to as it is |
| Redirects.ResolveUrl | cv/views.py:47-49 | `resolve_url`: a "./" or "../" path is kept; a route name gives its path; otherwise a text with a '/' or '.' is kept, and one with neither fails (`NoReverseMatch`) |
| Redirects.SchemeIn | cv/views.py:47-48 | in a cleaned location: no ':' gives no scheme; a text before the first ':' that is not a well-formed scheme (an ASCII letter, then letters, digits, '+', '-', '.') gives no scheme; a well-formed one is the scheme, lower-cased |
| Redirects.Scheme | cv/views.py:47-48 | the scheme of the location once leading control characters and spaces and every tab and line break are dropped: empty or well formed |
| Redirects.LStripC0Pad | cv/views.py:47-48 | stripping the front removes any run of leading control characters and spaces, whatever follows |
| Redirects.LStripC0Append | cv/views.py:47-48 | stripping the front of a joined text stops inside the first part unless that part is all padding, in which case it strips the second |
| Redirects.SchemePadded | cv/views.py:47-48 | leading control characters and spaces do not change the scheme of a location |
| Redirects.SchemeDropsUnsafe | cv/views.py:47-48 | a tab, carriage return or line feed anywhere in a location does not change its scheme |
| Redirects.PaddedForeignSchemeRefused | cv/views.py:47-48 | padding in front of a link with a refused scheme, such as " mailto:a@b.com", does not rescue it: still a bad request |
| Redirects.NoColonNoScheme | cv/views.py:47-48 | a location without ':' has no scheme |
| Redirects.Redirect | cv/views.py:47-49 | never not-found; a redirect iff the text resolves and its scheme is empty, http, https or ftp, and then to the resolved location; a server error iff the text does not resolve; a bad request iff it resolves to a location with another scheme |
| Redirects.SchemelessLinkFollowed | cv/views.py:48 | a link without ':' that names no route and holds a '/' or '.', such as "www.site.com/cert.pdf", is followed as written |
| Redirects.HomeRedirect | cv/views.py:49 | `redirect('home')` goes to "/cv/", the path of the route named "home" |
| Redirects.BareWordFails | cv/views.py:48 | a link that names no route and holds neither '/' nor '.' is a server error |
| Redirects.WebLinkFollowed | cv/views.py:47-48 | a link with an http, https or ftp scheme in any case and a '/' or '.' after it is followed as written |
| Redirects.ForeignSchemeRefused | cv/views.py:47-48 | a link with any other scheme and a '/' or '.' after it, such as "mailto:a@b.com", is refused as a bad request |
| Redirects.RootPathFollowed | cv/views.py:47-48 | a path from the root is followed as written |
| Redirects.SchemeOf | cv/views.py:47-48 | `scheme:rest` has the lower-cased scheme when the scheme is well formed |
| Export.ExportToggles | cv/views.py:84-92 | from the export dialog, each section is on iff its key is present, whatever its value; otherwise all but listings are on, and listings are off |
| Export.Select | cv/views.py:95-103 | a disabled section is empty and an enabled one is kept whole, in order |
| Export.DownloadUrl | cv/views.py:128-136 | an attached file is always downloaded whatever its type; otherwise a non-empty link is downloaded iff `lower().strip()` of it ends in ".pdf", and it is the link as written that is used |
| Export.Attempts | cv/views.py:127-136 | at most one download per record |
| Export.ExportAttempts | cv/views.py:148-151 | the attempts of an export, section by section; no more than the enabled sections have records (its meaning is pinned by ExportAttemptsSound and DefaultExport) |
| Export.Fetch | cv/views.py:137-145 | a download contributes a document iff the request returns status 200 and the merger accepts the body, and then it is that body |
| Export.Collect | cv/views.py:137-145 | at most one merged document per attempt |
| Export.Merger.Append | cv/views.py:142-143 | the merger gains exactly the appended document at the end |
| Export.AppendDownload | cv/views.py:137-145 | one attempt appends exactly what the fetch yields: the body of a readable status-200 reply, and nothing after an exception or another status |
| Export.AppendAttachments | cv/views.py:126-145 | the URLs tried are exactly the records' download URLs in record order, and the merger gains exactly the successfully fetched documents, in that order |
| Export.AppendSection | cv/views.py:148-151 | `if show: append_attachments(records)` continues the attempts and the merged documents already made; a hidden section adds no attempt |
| Export.AssembleExport | cv/views.py:122-151 | the merged file is the main document followed by the fetched attachments of the enabled sections, in the order courses, experience, awards, listings |
| Export.EnrichSections | cv/views.py:105-107 | every experience, course and award record passed in carries the fields its attachment resolves to |
| Export.CvPrint | cv/views.py:84-151 | from the query string: the attempts are those of the toggled sections in that order, the merged file is the main document then every successful download, and the selected experience, course and award records are enriched; only those records may be written, so the records of disabled sections stay as they were. Listing records carry no link, as their model has none |
| Export.LinkLooksPdfMeans | cv/views.py:133 | `LinkLooksPdf`, the test `link.lower().strip().endswith('.pdf')`, holds iff, ignoring trailing whitespace, the link ends in ".pdf" in any case; leading whitespace plays no part |
| Export.AttemptedIsDisplayed | cv/views.py:128-136 | every downloaded URL is the one the page shows for that record; a shown but skipped locator is a link that does not look like a PDF |
| Export.AttemptsSound | cv/views.py:127-136 | a URL is attempted iff some record of the list resolves to it |
| Export.ExportAttemptsSound | cv/views.py:148-151 | a URL is attempted iff a record of an enabled section resolves to it |
| Export.DisabledSectionsIgnored | cv/views.py:148-151 | the records of disabled sections have no effect on what is attempted |
| Export.DefaultExport | cv/views.py:84-151 | without the dialog, courses, experience and awards are attempted in that order and listings never are |
| Export.CollectAround | cv/views.py:137-145 | the merged documents split around any one attempt into what came before, its own contribution and what came after |
| Export.FailureIsIsolated | cv/views.py:137-145 | a failed download drops exactly its own document and keeps every other, in order |
| Export.CollectComplete | cv/views.py:137-145 | every attempt contributes a document iff every download succeeds |
| Export.OneFailure | cv/views.py:137-145 | when all downloads but one succeed, exactly one attachment is missing |
| Export.CollectSound | cv/views.py:137-145 | every merged attachment is the body of a successful download of an attempted URL |
| Validators.NoFuture | cv/models.py:26-28 | a date is refused iff it is present and strictly after today; today itself is accepted |
| Validators.NoFutureLater | cv/models.py:26-28 | a date accepted today is accepted on every later day |
| Validators.DateRange | cv/models.py:30-32 | refused iff both dates are present and the end precedes the start |
| Validators.DateRangeOrdered | cv/models.py:30-32 | two present dates pass iff they are equal or in order |
| Validators.Age | cv/models.py:36-37 | the computed age is the number of birthdays had: the `age`-th birthday has come and the next has not |
| Validators.AgeCountsBirthdays | cv/models.py:37 | the n-th birthday has come iff n is at most the age |
| Validators.AgeCheck | cv/models.py:34-39 | an absent date passes; otherwise it passes iff 18 <= age <= 100, with the under-age error below 18 and the over-age error above 100 |
| Validators.AgeCheckByBirthdays | cv/models.py:34-39 | a birth date passes iff the 18th birthday has come and the 101st has not |
| Validators.AdultBornInThePast | cv/models.py:34-39 | a birth date accepted by the age check is never in the future |
| Validators.TenDigits | cv/models.py:41-44 | an absent or empty value passes; non-digits are refused before the length is checked; otherwise exactly ten characters pass, and the error reports the length |
| Validators.Positive | cv/models.py:46-48 | an absent value passes; a present value is refused iff it is at most zero |
| Validators.LastIndex | cv/models.py:12 | `rfind`: the last position of the character, or -1 |
| Validators.Extension | cv/models.py:12 | `os.path.splitext(...)[1]`: a suffix of the name that is empty or a single '.' and no '/', preceded in its component by something other than dots; it is non-empty whenever the last component has a '.' after a character other than '.' |
| Validators.Folder | cv/models.py:15-19 | each kind of upload has its own directory: "perfil" for profile photos, "certificados/experiencia", "certificados/cursos" and "certificados/logros" for experience, course and award certificates, "garage" for listing photos, each one only for its kind; every directory is a non-empty relative path with no '.' that does not end in '/' |
| Validators.UploadPath | cv/models.py:11-13 | the path is the kind's folder, "/", exactly the uuid's hex, then the file's extension lower-cased |
| Validators.StoredFile | cv/models.py:13 | `folder/hex.ext` reads back as extension `.ext`, in directory `folder` |
| Validators.UploadKeepsExtension | cv/models.py:11-19 | a stored path lies directly in its kind's folder, its extension is the uploaded name's extension lower-cased, and the stem between the last '/' and the extension is exactly the hex |
| Records.CleanRow | cv/models.py:150-288 | `clean()` changes nothing but a listing's condition. A profile passes iff its birth date is not in the future and passes the age check, and a future date is reported before the age; an award or labour product passes iff its date is not in the future; an experience or course passes iff neither date is in the future and, when both are present, the end is not before the start, a future date being reported before the order; a listing with a future publication date reports that date, before its condition is looked at; an academic product always passes |
| Records.CleanSpan | cv/models.py:177-180 | the shared body of the two date-span `clean()` methods (also lines 204-207): a pass leaves the record unchanged; the only errors are a future date and an end before the start; a future start is reported first, and an order error only when neither date is in the future |
| Records.FieldErrors | cv/models.py:105-106 | the field validators: the profile's age and its two ten-digit numbers (lines 105, 106, 135), a course's hours (line 193) and a listing's price (line 275) pass iff no error is collected; a profile collects exactly one error per failing validator, each that validator's own error (an under-age birth date is reported as under age); a course or listing collects at most the one not-positive error; no field error is a date, range or condition error |
| Records.SpanClean | cv/models.py:177-180 | the date check shared by experience and course records (same at lines 204-207) passes iff neither date lies in the future and, when both are present, the end is not before the start |
| Records.InvalidSpanNeverSaved | cv/models.py:177-180 | an experience or course with a future date, or with its end before its start, collects a validation error and is left unchanged, so saving it writes nothing |
| Records.FutureBirthReportedFirst | cv/models.py:151-153 | a future birth date is reported as a future date, before the age bounds it also fails |
| Records.ProfileValid | cv/models.py:150-153 | a profile that validates has a birth date, if any, that is not in the future and an age within 18..100 |
| Records.ListingClean | cv/models.py:283-288 | a listing passes iff it is not published in the future and its condition is empty or capitalises to "Bueno" or "Regular"; the capitalised condition is kept and capitalising again changes nothing |
| Records.ListingConditionCase | cv/models.py:285-288 | `clean()` of a listing has the same outcome, error or stored condition, when the condition is lower-cased first: letter case plays no part |
| Records.Instance.Clean | cv/models.py:283-288 | on an error nothing changes; otherwise the record becomes its cleaned form |
| Records.FullCleanErrors | cv/models.py:54 | `full_clean` collects no error iff the field validators and `clean()` all pass; the field errors come first, followed by at most one error of `clean()` |
| Records.AfterFullClean | cv/models.py:54 | `full_clean` changes only a listing's condition, and nothing when `clean()` raises |
| Records.Instance.FullClean | cv/models.py:54 | the errors are the field errors followed by the one `clean()` raised, and the record is left as `clean()` left it |
| Records.Database.Insert | cv/models.py:55 | the log of writes gains exactly the written row |
| Records.Instance.Save | cv/models.py:53-55 | a row is written iff validation collected no error, and what is written is the cleaned record |
| Records.ValidationIsStable | cv/models.py:53-55 | a record that validates is left in a state that validates again and is not changed by a second validation |

## Left out

- Rendering the main document with WeasyPrint and the HTTP response with its
  file name: the main document is an input. The main document is also the
  only point where the rendered context would matter.
- PDF merging with pypdf: the merger is the list of documents appended to it.
  A body pypdf cannot read raises inside the same handler as a failed
  request; the model has a `readable` oracle for it.
- HTTP with `requests.get` and its 15-second timeout: the network is a
  function from URL to a response or an exception. It is deterministic per
  URL, so two downloads of the same URL within one export agree.
- The error message printed for a failed download.
- Database queries, their filters and `order_by`, the model `Meta.ordering`,
  and `get_object_or_404` for the profile: the section lists are inputs in
  the order the store returns them. `doc_redirect`'s lookup is a map from
  kind and key to a record.
- Redirects.ResolveUrl: only the argument-free route names of the CV's own
  URL table ("home", "sin_datos") are known. Names in the admin site's
  namespace, such as "admin:index", would also reverse; they are not
  modelled. Paths assume the site is served from the root (no script
  prefix).
- Redirects.Redirect: the length limit that recent Django versions place on
  a redirect location is not modelled, nor the percent-encoding
  (`iri_to_uri`) of the Location header. Nor is the host validation of
  `urlsplit`: a malformed bracketed host such as "http://[abc]/x" raises
  `ValueError` there, a server error, where the model redirects.
- `date.today()` and `uuid.uuid4()`: today and the hex are parameters.
- Records.FieldErrors: Django's own field checks in `full_clean` are not
  modelled: maximum lengths, required fields, e-mail and URL formats, and
  `choices`. For a listing, `choices` would refuse a condition such as
  "bueno" in `clean_fields` before `clean()` capitalises it.
- Text.Lower: ASCII case mapping only. This is exact for the ".pdf" tests,
  because no other character lower-cases to '.', 'p', 'd' or 'f'. It is not
  exact for non-ASCII text in a listing condition (cv/models.py:286) or in an
  uploaded file's extension (cv/models.py:12), where Python lower-cases
  letters such as 'É' and the model keeps them.
- Validators.TenDigits: digits are ASCII '0'..'9'. Python's `isdigit` also
  accepts other Unicode digits, such as superscripts.
- Validators.Positive: Decimal prices and integer hours are modelled as
  reals. Decimal precision and the ten-digit limit are not modelled.
- Dates are any (year, month, day) triple compared in
  Python's order. Calendar validity is the date type's business.
- The other views of cv/views.py (lines 51-78): `cv_home` redirects to the
  first active profile's page, or shows `sin_datos` when there is none;
  `sin_datos` returns a fixed "no active profiles" page; `perfil_detail`
  queries one profile's active records, enriches its experiences, courses,
  awards and listings with `_enrich_objects` (modelled as
  Enrichment.EnrichObjects) and renders them. The queries, ordering and
  rendering are database and template work.
- The admin configuration, the URL tables and the settings.
