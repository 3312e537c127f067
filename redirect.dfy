/**
 * Django's `redirect(to)` for a string `to`, the way `doc_redirect` calls it.
 * `resolve_url` keeps a "./" or "../" path as it is; otherwise it first tries
 * `to` as the name of a URL pattern that takes no arguments, and failing that
 * keeps `to` as a location if it holds a '/' or a '.', re-raising
 * `NoReverseMatch` if it holds neither. The redirect response then refuses a
 * location whose URL scheme is not http, https or ftp (`DisallowedRedirect`).
 * `NoReverseMatch` reaches the client as a server error (500);
 * `DisallowedRedirect` is a suspicious operation, answered with a bad
 * request (400).
 */
module Redirects {
  import opened Wrappers
  import opened Text

  /** The outcome of a view that answers with a redirect. */
  datatype Response = NotFound | RedirectTo(location: string) | ServerError | BadRequest

  /**
   * The URL names that reverse without arguments, with their paths: the
   * argument-free patterns of cv/urls.py, mounted under "cv/" by
   * hojadevida/urls.py.
   */
  const Routes: map<string, string> := map["home" := "/cv/", "sin_datos" := "/cv/sin-datos/"]

  /** `to.startswith(("./", "../"))` */
  predicate RelativeDot(to: string)
  {
    (|to| >= 2 && to[..2] == "./") || (|to| >= 3 && to[..3] == "../")
  }

  /** `resolve_url(to)` for a string; `None` when `NoReverseMatch` is re-raised. */
  function ResolveUrl(to: string): (r: Option<string>)
    ensures r.None? <==> !RelativeDot(to) && to !in Routes && '/' !in to && '.' !in to
    ensures r.Some? && !RelativeDot(to) && to in Routes ==> r.value == Routes[to]
    ensures r.Some? && to !in Routes ==> r.value == to
  {
    if RelativeDot(to) then Some(to)
    else if to in Routes then Some(Routes[to])
    else if '/' !in to && '.' !in to then None
    else Some(to)
  }

  // ---------------------------------------------------------------
  // The URL scheme, as `urllib.parse.urlsplit` finds it
  // ---------------------------------------------------------------

  /** The C0 controls and the space, which `urlsplit` strips from the front. */
  predicate IsC0OrSpace(c: char)
  {
    c <= ' '
  }

  function LStripC0(s: string): (r: string)
    ensures |r| <= |s| && r == s[|s| - |r|..]
    ensures r == [] || !IsC0OrSpace(r[0])
    ensures forall i :: 0 <= i < |s| - |r| ==> IsC0OrSpace(s[i])
  {
    if s == [] || !IsC0OrSpace(s[0]) then s else LStripC0(s[1..])
  }

  /** Tab, carriage return and line feed, which `urlsplit` removes everywhere. */
  predicate IsUnsafe(c: char)
  {
    c == '\t' || c == '\r' || c == '\n'
  }

  function DropUnsafe(s: string): (r: string)
    ensures |r| <= |s|
    ensures forall i :: 0 <= i < |r| ==> r[i] in s
    ensures forall i :: 0 <= i < |r| ==> !IsUnsafe(r[i])
  {
    if s == [] then []
    else if IsUnsafe(s[0]) then DropUnsafe(s[1..])
    else [s[0]] + DropUnsafe(s[1..])
  }

  predicate IsAsciiLetter(c: char)
  {
    ('a' <= c <= 'z') || ('A' <= c <= 'Z')
  }

  /** `urllib.parse.scheme_chars` */
  predicate IsSchemeChar(c: char)
  {
    IsAsciiLetter(c) || ('0' <= c <= '9') || c == '+' || c == '-' || c == '.'
  }

  /** A well-formed scheme: an ASCII letter, then scheme characters. */
  predicate IsSchemeText(s: string)
  {
    s != [] && IsAsciiLetter(s[0]) && forall k :: 0 <= k < |s| ==> IsSchemeChar(s[k])
  }

  /**
   * The scheme found in a cleaned URL: the text before the first ':' when it
   * is a well-formed scheme, lower-cased; otherwise empty.
   */
  function SchemeIn(u: string): (s: string)
    ensures s == [] || IsSchemeText(s)
    ensures IndexOf(u, ":").None? ==> s == []
    ensures IndexOf(u, ":").Some? && !IsSchemeText(u[..IndexOf(u, ":").value]) ==> s == []
    ensures IndexOf(u, ":").Some? && IsSchemeText(u[..IndexOf(u, ":").value]) ==>
      s == Lower(u[..IndexOf(u, ":").value])
  {
    match IndexOf(u, ":")
    case None => []
    case Some(i) =>
      if IsSchemeText(u[..i]) then
        LowerScheme(u[..i]);
        Lower(u[..i])
      else []
  }

  /**
   * The scheme `urlsplit` reports, once it has stripped the leading C0
   * controls and spaces and removed every tab, carriage return and line feed.
   */
  function Scheme(url: string): (s: string)
    ensures s == [] || IsSchemeText(s)
  {
    SchemeIn(DropUnsafe(LStripC0(url)))
  }

  /** `HttpResponseRedirect.allowed_schemes`, or no scheme at all. */
  predicate AllowedLocation(location: string)
  {
    Scheme(location) in {"", "http", "https", "ftp"}
  }

  /** `redirect(to)`: resolve, then refuse a location with a foreign scheme. */
  function Redirect(to: string): (r: Response)
    ensures r != NotFound
    ensures r.RedirectTo? <==> ResolveUrl(to).Some? && AllowedLocation(ResolveUrl(to).value)
    ensures r.RedirectTo? ==> r.location == ResolveUrl(to).value
    ensures r == ServerError <==> ResolveUrl(to).None?
    ensures r == BadRequest <==> ResolveUrl(to).Some? && !AllowedLocation(ResolveUrl(to).value)
  {
    match ResolveUrl(to)
    case None => ServerError
    case Some(location) => if AllowedLocation(location) then RedirectTo(location) else BadRequest
  }

  // ---------------------------------------------------------------
  // Properties
  // ---------------------------------------------------------------

  /** Lower-casing keeps a well-formed scheme well formed. */
  lemma LowerScheme(s: string)
    requires IsSchemeText(s)
    ensures IsSchemeText(Lower(s))
  {
    var l := Lower(s);
    forall k | 0 <= k < |l|
      ensures IsSchemeChar(l[k])
    {
      assert l[k] == LowerChar(s[k]);
    }
  }

  /** Removing the unsafe characters works piece by piece. */
  lemma {:induction false} DropUnsafeAppend(a: string, b: string)
    ensures DropUnsafe(a + b) == DropUnsafe(a) + DropUnsafe(b)
  {
    if a == [] {
      assert a + b == b;
    } else {
      assert (a + b)[1..] == a[1..] + b;
      DropUnsafeAppend(a[1..], b);
    }
  }

  /** A text without unsafe characters is kept whole. */
  lemma {:induction false} DropUnsafeKeeps(s: string)
    requires forall i :: 0 <= i < |s| ==> !IsUnsafe(s[i])
    ensures DropUnsafe(s) == s
  {
    if s != [] {
      DropUnsafeKeeps(s[1..]);
    }
  }

  /** The first ':' of `head + ":" + tail` is the one after `head` when `head` has none. */
  lemma FirstColon(head: string, tail: string)
    requires forall k :: 0 <= k < |head| ==> head[k] != ':'
    ensures IndexOf(head + ":" + tail, ":") == Some(|head|)
  {
    var u := head + ":" + tail;
    var i := |head|;
    assert OccursAt(u, ":", i) by {
      assert u[i..i + 1] == [u[i]];
    }
    forall j | 0 <= j < i
      ensures !OccursAt(u, ":", j)
    {
      assert u[j..j + 1] == [head[j]];
    }
    IndexOfUnique(u, ":", i);
  }

  /** In a cleaned URL, a well-formed scheme before the first ':' is the scheme. */
  lemma SchemeInOf(scheme: string, tail: string)
    requires IsSchemeText(scheme)
    ensures SchemeIn(scheme + ":" + tail) == Lower(scheme)
  {
    var u := scheme + ":" + tail;
    FirstColon(scheme, tail);
    assert u[..|scheme|] == scheme;
  }

  /** A cleaned URL that starts with '/' has no scheme. */
  lemma SchemeInSlash(u: string)
    requires u != [] && u[0] == '/'
    ensures SchemeIn(u) == []
  {
    match IndexOf(u, ":")
    case None =>
    case Some(i) =>
      if i > 0 {
        assert u[..i][0] == '/';
      }
  }

  /** Cleaning `scheme + ":" + rest` touches only `rest`. */
  lemma CleanSchemeHead(scheme: string, rest: string)
    requires IsSchemeText(scheme)
    ensures DropUnsafe(LStripC0(scheme + ":" + rest)) == scheme + ":" + DropUnsafe(rest)
  {
    var head := scheme + ":";
    assert (head + rest)[0] == scheme[0];
    assert scheme + ":" + rest == head + rest;
    forall i | 0 <= i < |head|
      ensures !IsUnsafe(head[i])
    {
      if i < |scheme| {
        assert head[i] == scheme[i];
      }
    }
    DropUnsafeKeeps(head);
    DropUnsafeAppend(head, rest);
  }

  /** `scheme + ":" + rest` has the scheme `scheme`, lower-cased, when `scheme` is well formed. */
  lemma SchemeOf(scheme: string, rest: string)
    requires IsSchemeText(scheme)
    ensures Scheme(scheme + ":" + rest) == Lower(scheme)
  {
    CleanSchemeHead(scheme, rest);
    SchemeInOf(scheme, DropUnsafe(rest));
  }

  /** A text without ':' has no first ':'. */
  lemma NoColon(u: string)
    requires ':' !in u
    ensures IndexOf(u, ":") == None
  {
    forall j | 0 <= j && j + 1 <= |u|
      ensures !OccursAt(u, ":", j)
    {
      assert u[j..j + 1] == [u[j]];
    }
  }

  /** Leading C0 controls and spaces are stripped whatever follows them. */
  lemma {:induction false} LStripC0Pad(pad: string, url: string)
    requires forall i :: 0 <= i < |pad| ==> IsC0OrSpace(pad[i])
    ensures LStripC0(pad + url) == LStripC0(url)
  {
    if pad == [] {
      assert pad + url == url;
    } else {
      var rest := pad[1..];
      assert (pad + url)[0] == pad[0] && IsC0OrSpace(pad[0]);
      assert (pad + url)[1..] == rest + url;
      assert LStripC0(pad + url) == LStripC0(rest + url);
      forall i | 0 <= i < |rest| ensures IsC0OrSpace(rest[i]) {
        assert rest[i] == pad[i + 1];
      }
      LStripC0Pad(rest, url);
    }
  }

  /** Stripping the front of `a + b` stops inside `a` unless `a` is all padding. */
  lemma {:induction false} LStripC0Append(a: string, b: string)
    ensures LStripC0(a) != [] ==> LStripC0(a + b) == LStripC0(a) + b
    ensures LStripC0(a) == [] ==> LStripC0(a + b) == LStripC0(b)
  {
    if a == [] {
      assert a + b == b;
    } else if !IsC0OrSpace(a[0]) {
      assert LStripC0(a) == a;
      assert (a + b)[0] == a[0];
    } else {
      assert (a + b)[0] == a[0];
      assert (a + b)[1..] == a[1..] + b;
      assert LStripC0(a) == LStripC0(a[1..]);
      assert LStripC0(a + b) == LStripC0(a[1..] + b);
      LStripC0Append(a[1..], b);
    }
  }

  /** Leading control characters and spaces do not change the scheme. */
  lemma SchemePadded(pad: string, url: string)
    requires forall i :: 0 <= i < |pad| ==> IsC0OrSpace(pad[i])
    ensures Scheme(pad + url) == Scheme(url)
  {
    LStripC0Pad(pad, url);
  }

  /** Removing tabs and line breaks skips an unsafe character wherever it sits. */
  lemma DropUnsafeSkip(a: string, c: char, b: string)
    requires IsUnsafe(c)
    ensures DropUnsafe(a + ([c] + b)) == DropUnsafe(a + b)
  {
    DropUnsafeAppend(a, [c] + b);
    DropUnsafeAppend(a, b);
    assert ([c] + b)[1..] == b;
  }

  /** Stripping the front skips an unsafe character wherever it sits, once unsafe ones are dropped. */
  lemma CleanSkip(a: string, c: char, b: string)
    requires IsUnsafe(c)
    ensures DropUnsafe(LStripC0(a + ([c] + b))) == DropUnsafe(LStripC0(a + b))
  {
    var cb := [c] + b;
    LStripC0Append(a, cb);
    LStripC0Append(a, b);
    var la := LStripC0(a);
    if la != [] {
      assert LStripC0(a + cb) == la + cb;
      assert LStripC0(a + b) == la + b;
      DropUnsafeSkip(la, c, b);
    } else {
      assert cb[0] == c && IsC0OrSpace(c) && cb[1..] == b;
      assert LStripC0(cb) == LStripC0(b);
    }
  }

  /** A tab, carriage return or line feed anywhere does not change the scheme. */
  lemma SchemeDropsUnsafe(a: string, c: char, b: string)
    requires IsUnsafe(c)
    ensures Scheme(a + [c] + b) == Scheme(a + b)
  {
    calc {
      Scheme(a + [c] + b);
    == { assert a + [c] + b == a + ([c] + b); }
      SchemeIn(DropUnsafe(LStripC0(a + ([c] + b))));
    == { CleanSkip(a, c, b); }
      SchemeIn(DropUnsafe(LStripC0(a + b)));
    }
  }

  /** A scheme link with a '/' or '.' after the colon is no route name and is kept as given. */
  lemma SchemeLinkKept(head: string, scheme: string, rest: string)
    requires '/' in rest || '.' in rest
    ensures ResolveUrl(head + (scheme + ":" + rest)) == Some(head + (scheme + ":" + rest))
  {
    var to := head + (scheme + ":" + rest);
    assert to[|head| + |scheme|] == ':';
    assert to !in Routes;
    KeepsSlashOrDot(head + scheme + ":", rest);
    assert head + scheme + ":" + rest == to;
  }

  /**
   * Padding in front of a refused link does not rescue it: " mailto:a@b.com"
   * is refused like "mailto:a@b.com".
   */
  lemma PaddedForeignSchemeRefused(pad: string, scheme: string, rest: string)
    requires forall i :: 0 <= i < |pad| ==> IsC0OrSpace(pad[i])
    requires IsSchemeText(scheme)
    requires Lower(scheme) !in {"http", "https", "ftp"}
    requires '/' in rest || '.' in rest
    ensures Redirect(pad + (scheme + ":" + rest)) == BadRequest
  {
    var link := scheme + ":" + rest;
    SchemeLinkKept(pad, scheme, rest);
    SchemePadded(pad, link);
    SchemeOf(scheme, rest);
    assert Lower(scheme) != [];
  }

  /** A location without ':' has no scheme, whatever else it holds. */
  lemma NoColonNoScheme(url: string)
    requires ':' !in url
    ensures Scheme(url) == []
  {
    var t := LStripC0(url);
    assert ':' !in t by {
      forall k | 0 <= k < |t|
        ensures t[k] != ':'
      {
        assert t[k] == url[|url| - |t| + k];
      }
    }
    NoColon(DropUnsafe(t));
  }

  /**
   * A link without ':' that names no route and holds a '/' or a '.', such as
   * "www.site.com/cert.pdf", is followed as written.
   */
  lemma SchemelessLinkFollowed(to: string)
    requires ':' !in to && to !in Routes
    requires '/' in to || '.' in to
    ensures Redirect(to) == RedirectTo(to)
  {
    NoColonNoScheme(to);
  }

  /** A path from the root has no scheme. */
  lemma RootPathNoScheme(to: string)
    requires to != [] && to[0] == '/'
    ensures Scheme(to) == []
  {
    assert LStripC0(to) == to;
    assert DropUnsafe(to) == [to[0]] + DropUnsafe(to[1..]);
    SchemeInSlash(DropUnsafe(to));
  }

  /** A path from the root is followed as written. */
  lemma RootPathFollowed(to: string)
    requires to != [] && to[0] == '/'
    ensures Redirect(to) == RedirectTo(to)
  {
    assert to !in Routes by {
      assert "home"[0] != '/' && "sin_datos"[0] != '/';
    }
    assert '/' in to;
    RootPathNoScheme(to);
  }

  /** "home" goes to the CV's front page. */
  lemma HomeRedirect()
    ensures Redirect("home") == RedirectTo("/cv/")
  {
    assert !RelativeDot("home") by {
      assert "home"[..2] == "ho" && "home"[..3] == "hom";
    }
    assert ResolveUrl("home") == Some("/cv/");
    RootPathNoScheme("/cv/");
  }

  /** A word that names no route and holds neither '/' nor '.' is a server error (`NoReverseMatch`). */
  lemma BareWordFails(to: string)
    requires to !in Routes && '/' !in to && '.' !in to
    ensures Redirect(to) == ServerError
  {
    assert |to| >= 2 ==> to[..2][0] != '.';
    assert |to| >= 3 ==> to[..3][0] != '.';
    assert ResolveUrl(to) == None;
  }

  /** A text with a ':' after a non-empty head names no route. */
  lemma NotARoute(scheme: string, rest: string)
    requires scheme != []
    ensures scheme + ":" + rest !in Routes
  {
    var to := scheme + ":" + rest;
    assert to[|scheme|] == ':';
  }

  /** A '/' or '.' of the tail is one of the whole. */
  lemma KeepsSlashOrDot(head: string, rest: string)
    requires '/' in rest || '.' in rest
    ensures '/' in head + rest || '.' in head + rest
  {
    var k :| 0 <= k < |rest| && (rest[k] == '/' || rest[k] == '.');
    assert (head + rest)[|head| + k] == rest[k];
  }

  /** A link with an http, https or ftp scheme, in any case, and a '/' or '.' after it is followed as written. */
  lemma WebLinkFollowed(scheme: string, rest: string)
    requires IsSchemeText(scheme)
    requires Lower(scheme) in {"http", "https", "ftp"}
    requires '/' in rest || '.' in rest
    ensures Redirect(scheme + ":" + rest) == RedirectTo(scheme + ":" + rest)
  {
    var to := scheme + ":" + rest;
    NotARoute(scheme, rest);
    KeepsSlashOrDot(scheme + ":", rest);
    assert !RelativeDot(to) by {
      assert to[0] == scheme[0];
    }
    assert ResolveUrl(to) == Some(to);
    SchemeOf(scheme, rest);
  }

  /**
   * A link with any other scheme and a '/' or '.' after it, such as
   * "mailto:a@b.com", is refused (`DisallowedRedirect`): a bad request.
   */
  lemma ForeignSchemeRefused(scheme: string, rest: string)
    requires IsSchemeText(scheme)
    requires Lower(scheme) !in {"http", "https", "ftp"}
    requires '/' in rest || '.' in rest
    ensures Redirect(scheme + ":" + rest) == BadRequest
  {
    var to := scheme + ":" + rest;
    NotARoute(scheme, rest);
    KeepsSlashOrDot(scheme + ":", rest);
    assert !RelativeDot(to) by {
      assert to[0] == scheme[0];
    }
    assert ResolveUrl(to) == Some(to);
    SchemeOf(scheme, rest);
    assert Lower(scheme) != [];
  }
}
