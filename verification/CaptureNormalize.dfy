// Normalisation of capture requests: what is accepted, and in which form.

module CaptureNormalize {
  import opened Options
  import opened Text

  const TEXT_MAX := 12_000
  const URL_MAX := 2_048
  const NOTE_MAX := 2_000
  const SOURCE_FIELD_MAX := 512
  const MAX_URLS := 16

  datatype Error = Error(status: int, code: string, field: string)

  datatype Source = Source(app: Option<string>, title: Option<string>, url: Option<string>)

  datatype Shared = Shared(text: Option<string>, urls: Option<seq<string>>)

  datatype Content = TextContent(text: string) | UrlContent(url: string) | SharedContent(shared: Shared)

  datatype Request = Request(content: Content, note: Option<string>, source: Option<Source>)

  datatype NormalContent =
    | NormalText(text: string)
    | NormalUrl(url: string)
    | NormalShared(sharedText: Option<string>, urls: seq<string>)

  // The canonical payload of an accepted request.
  datatype Canonical = Canonical(content: NormalContent, note: Option<string>, source: Option<Source>)

  function Normalized(raw: string, max: nat, blank: Error, long: Error): Result<string, Error>
  {
    if Strip(raw) == [] then Err(blank) else if |Strip(raw)| > max then Err(long) else Ok(Strip(raw))
  }

  function NormalizeNote(raw: Option<string>): Result<Option<string>, Error>
  {
    match raw
    case None => Ok(None)
    case Some(note) =>
      match Normalized(note, NOTE_MAX, Error(422, "E_CAPTURE_PAYLOAD_INVALID", "note"),
                       Error(413, "E_CAPTURE_NOTE_TOO_LARGE", "note"))
      case Err(e) => Err(e)
      case Ok(s) => Ok(Some(s))
  }

  function NormalizeSourceField(raw: Option<string>, field: string): Result<Option<string>, Error>
  {
    match raw
    case None => Ok(None)
    case Some(value) =>
      match Normalized(value, SOURCE_FIELD_MAX, Error(422, "E_CAPTURE_SOURCE_INVALID", field),
                       Error(413, "E_CAPTURE_SOURCE_TOO_LARGE", field))
      case Err(e) => Err(e)
      case Ok(s) => Ok(Some(s))
  }

  function NormalizeSource(raw: Option<Source>): Result<Option<Source>, Error>
  {
    match raw
    case None => Ok(None)
    case Some(source) =>
      var app := NormalizeSourceField(source.app, "source.app");
      var title := NormalizeSourceField(source.title, "source.title");
      var url := NormalizeSourceField(source.url, "source.url");
      if app.Err? then Err(app.error)
      else if title.Err? then Err(title.error)
      else if url.Err? then Err(url.error)
      else if app.value.None? && title.value.None? && url.value.None? then
        Err(Error(422, "E_CAPTURE_SOURCE_INVALID", "source"))
      else Ok(Some(Source(app.value, title.value, url.value)))
  }

  // `isHttp` is what URL parsing says of a stripped URL: an http or https scheme
  // and a network location.
  function NormalizeUrl(raw: string, field: string, isHttp: string -> bool): Result<string, Error>
  {
    var blank, long := Error(422, "E_CAPTURE_URL_INVALID", field), Error(413, "E_CAPTURE_URL_TOO_LARGE", field);
    match Normalized(raw, URL_MAX, blank, long)
    case Err(e) => Err(e)
    case Ok(url) => if isHttp(url) then Ok(url) else Err(Error(422, "E_CAPTURE_URL_INVALID", field))
  }

  function NormalizeText(raw: string): Result<string, Error>
  {
    var blank, long := Error(422, "E_CAPTURE_TEXT_REQUIRED", "text"), Error(413, "E_CAPTURE_TEXT_TOO_LARGE", "text");
    Normalized(raw, TEXT_MAX, blank, long)
  }

  // ------------------------------------------------------------ shared content

  const URLS_FIELD := "shared_content.urls"

  predicate UrlOk(raw: string, isHttp: string -> bool)
  {
    Strip(raw) != [] && |Strip(raw)| <= 2048 && isHttp(Strip(raw))
  }

  predicate TextOk(raw: string)
  {
    Strip(raw) != [] && |Strip(raw)| <= 12000
  }

  function StripAll(raw: seq<string>): seq<string>
  {
    seq(|raw|, i requires 0 <= i < |raw| => Strip(raw[i]))
  }

  ghost predicate Distinct(xs: seq<string>)
  {
    forall i, j :: 0 <= i < j < |xs| ==> xs[i] != xs[j]
  }

  ghost predicate UrlsOk(urls: seq<string>, isHttp: string -> bool)
  {
    && (forall i :: 0 <= i < |urls| ==> UrlOk(urls[i], isHttp))
    && Distinct(StripAll(urls)) && |urls| <= 16
  }

  // What shared content must be to be accepted.
  ghost predicate SharedOk(raw: Shared, isHttp: string -> bool)
  {
    && (raw.text.Some? ==> TextOk(raw.text.value))
    && (raw.urls.Some? ==> UrlsOk(raw.urls.value, isHttp))
    && (raw.text.Some? || (raw.urls.Some? && raw.urls.value != []))
  }

  function SharedValue(raw: Shared): NormalContent
  {
    NormalShared(if raw.text.Some? then Some(Strip(raw.text.value)) else None,
                 if raw.urls.Some? then StripAll(raw.urls.value) else [])
  }

  // The errors, in the order in which the request is read.
  ghost predicate SharedError(raw: Shared, isHttp: string -> bool, e: Error)
  {
    if raw.text.Some? && !TextOk(raw.text.value) then
      e == if Strip(raw.text.value) == [] then Error(422, "E_CAPTURE_SHARED_CONTENT_INVALID", "shared_content.text")
           else Error(413, "E_CAPTURE_TEXT_TOO_LARGE", "shared_content.text")
    else if raw.urls.Some?
            && exists i :: 0 <= i < |raw.urls.value| && UrlFailsAt(raw.urls.value, i, isHttp, e) then true
    else
      raw.text.None? && (raw.urls.Some? ==> raw.urls.value == [])
      && e == Error(422, "E_CAPTURE_SHARED_CONTENT_REQUIRED", "shared_content")
  }

  // The first offending URL, and what is wrong with it.
  ghost predicate UrlFailsAt(urls: seq<string>, i: int, isHttp: string -> bool, e: Error)
    requires 0 <= i < |urls|
  {
    && (forall j :: 0 <= j < i ==> UrlOk(urls[j], isHttp)) && Distinct(StripAll(urls[..i])) && i <= 16
    && if !UrlOk(urls[i], isHttp) then NormalizeUrl(urls[i], URLS_FIELD, isHttp) == Err(e)
       else if Strip(urls[i]) in StripAll(urls[..i]) then
         e == Error(422, "E_CAPTURE_SHARED_CONTENT_INVALID", URLS_FIELD)
       else i == 16 && e == Error(413, "E_CAPTURE_SHARED_CONTENT_TOO_LARGE", URLS_FIELD)
  }

  // The URLs one by one, with the set of those seen so far.
  method NormalizeUrls(given: seq<string>, isHttp: string -> bool) returns (r: Result<seq<string>, Error>)
    ensures r.Ok? <==> UrlsOk(given, isHttp)
    ensures r.Ok? ==> r.value == StripAll(given)
    ensures r.Err? ==> exists i :: 0 <= i < |given| && UrlFailsAt(given, i, isHttp, r.error)
  {
    hide Strip;
    var urls: seq<string> := [];
    var seen: set<string> := {};
    for i := 0 to |given|
      invariant urls == StripAll(given[..i]) && (forall u :: u in seen <==> u in urls)
      invariant forall j :: 0 <= j < i ==> UrlOk(given[j], isHttp)
      invariant Distinct(urls) && i <= MAX_URLS
    {
      assert forall j :: 0 <= j < i ==> StripAll(given)[j] == urls[j];
      var url := NormalizeUrl(given[i], URLS_FIELD, isHttp);
      if url.Err? {
        assert UrlFailsAt(given, i, isHttp, url.error);
        return Err(url.error);
      }
      if url.value in seen {
        var e := Error(422, "E_CAPTURE_SHARED_CONTENT_INVALID", URLS_FIELD);
        assert UrlFailsAt(given, i, isHttp, e);
        ghost var j :| 0 <= j < i && urls[j] == url.value;
        assert StripAll(given)[j] == StripAll(given)[i];
        return Err(e);
      }
      if |urls| >= MAX_URLS {
        var e := Error(413, "E_CAPTURE_SHARED_CONTENT_TOO_LARGE", URLS_FIELD);
        assert UrlFailsAt(given, i, isHttp, e);
        return Err(e);
      }
      seen := seen + {url.value};
      urls := urls + [url.value];
      assert StripAll(given[..i + 1]) == StripAll(given[..i]) + [Strip(given[i])];
    }
    assert given[..|given|] == given;
    return Ok(urls);
  }

  // Shared content is accepted exactly when it is well formed; it keeps its order.
  method NormalizeSharedContent(raw: Shared, isHttp: string -> bool) returns (r: Result<NormalContent, Error>)
    ensures r.Ok? <==> SharedOk(raw, isHttp)
    ensures r.Ok? ==> r.value == SharedValue(raw)
    ensures r.Err? ==> SharedError(raw, isHttp, r.error)
  {
    hide Strip, UrlsOk, UrlFailsAt, StripAll;
    var text: Option<string> := None;
    if raw.text.Some? {
      var candidate := Strip(raw.text.value);
      if candidate == [] {
        return Err(Error(422, "E_CAPTURE_SHARED_CONTENT_INVALID", "shared_content.text"));
      }
      if |candidate| > TEXT_MAX {
        return Err(Error(413, "E_CAPTURE_TEXT_TOO_LARGE", "shared_content.text"));
      }
      text := Some(candidate);
    }
    var urls: seq<string> := [];
    if raw.urls.Some? {
      var checked := NormalizeUrls(raw.urls.value, isHttp);
      if checked.Err? {
        return Err(checked.error);
      }
      urls := checked.value;
      StripAllLength(raw.urls.value);
      NoFailure(raw.urls.value, isHttp);
    }
    if text.None? && urls == [] {
      return Err(Error(422, "E_CAPTURE_SHARED_CONTENT_REQUIRED", "shared_content"));
    }
    return Ok(NormalShared(text, urls));
  }

  lemma StripAllLength(urls: seq<string>)
    ensures |StripAll(urls)| == |urls|
  {
  }

  // Well-formed URLs have no offending one.
  lemma NoFailure(urls: seq<string>, isHttp: string -> bool)
    requires UrlsOk(urls, isHttp)
    ensures forall i, e :: 0 <= i < |urls| ==> !UrlFailsAt(urls, i, isHttp, e)
  {
    hide Strip;
    forall i, e | 0 <= i < |urls|
      ensures !UrlFailsAt(urls, i, isHttp, e)
    {
      assert UrlOk(urls[i], isHttp);
      assert forall j :: 0 <= j < i ==> StripAll(urls[..i])[j] == StripAll(urls)[j];
      assert StripAll(urls)[i] == Strip(urls[i]);
    }
  }

  // ------------------------------------------------------------------ envelopes

  ghost predicate FieldOk(raw: Option<string>, max: nat)
  {
    raw.Some? ==> Strip(raw.value) != [] && |Strip(raw.value)| <= max
  }

  function StripOption(raw: Option<string>): Option<string>
  {
    match raw
    case None => None
    case Some(value) => Some(Strip(value))
  }

  ghost predicate SourceOk(raw: Option<Source>)
  {
    raw.Some? ==>
      var s := raw.value;
      && FieldOk(s.app, 512) && FieldOk(s.title, 512) && FieldOk(s.url, 512)
      && (s.app.Some? || s.title.Some? || s.url.Some?)
  }

  ghost predicate ContentOk(raw: Content, isHttp: string -> bool)
  {
    match raw
    case TextContent(text) => TextOk(text)
    case UrlContent(url) => UrlOk(url, isHttp)
    case SharedContent(shared) => SharedOk(shared, isHttp)
  }

  ghost predicate RequestOk(r: Request, isHttp: string -> bool)
  {
    FieldOk(r.note, 2000) && SourceOk(r.source) && ContentOk(r.content, isHttp)
  }

  function CanonicalContent(raw: Content): NormalContent
  {
    match raw
    case TextContent(text) => NormalText(Strip(text))
    case UrlContent(url) => NormalUrl(Strip(url))
    case SharedContent(shared) => SharedValue(shared)
  }

  function CanonicalOf(r: Request): Canonical
  {
    Canonical(CanonicalContent(r.content), StripOption(r.note),
              match r.source
              case None => None
              case Some(s) => Some(Source(StripOption(s.app), StripOption(s.title), StripOption(s.url))))
  }

  ghost predicate ContentError(raw: Content, isHttp: string -> bool, e: Error)
  {
    match raw
    case TextContent(text) => NormalizeText(text) == Err(e)
    case UrlContent(url) => NormalizeUrl(url, "url", isHttp) == Err(e)
    case SharedContent(shared) => SharedError(shared, isHttp, e)
  }

  // A request is accepted exactly when its note, its source and its content are
  // well formed, and what is kept of it is the same fields, stripped.
  method NormalizeEnvelope(r: Request, isHttp: string -> bool) returns (result: Result<Canonical, Error>)
    ensures result.Ok? <==> RequestOk(r, isHttp)
    ensures result.Ok? ==> result.value == CanonicalOf(r)
    ensures NormalizeNote(r.note).Err? ==> result == Err(NormalizeNote(r.note).error)
    ensures NormalizeNote(r.note).Ok? && NormalizeSource(r.source).Err? ==>
              result == Err(NormalizeSource(r.source).error)
    ensures NormalizeNote(r.note).Ok? && NormalizeSource(r.source).Ok? && result.Err? ==>
              ContentError(r.content, isHttp, result.error)
  {
    hide Strip, SharedOk, SharedValue, SharedError;
    var note := NormalizeNote(r.note);
    if note.Err? {
      return Err(note.error);
    }
    var source := NormalizeSource(r.source);
    if source.Err? {
      return Err(source.error);
    }
    match r.content {
      case TextContent(text) =>
        var content := NormalizeText(text);
        if content.Err? {
          return Err(content.error);
        }
        return Ok(Canonical(NormalText(content.value), note.value, source.value));
      case SharedContent(shared) =>
        var content := NormalizeSharedContent(shared, isHttp);
        if content.Err? {
          return Err(content.error);
        }
        return Ok(Canonical(content.value, note.value, source.value));
      case UrlContent(url) =>
        var content := NormalizeUrl(url, "url", isHttp);
        if content.Err? {
          return Err(content.error);
        }
        return Ok(Canonical(NormalUrl(content.value), note.value, source.value));
    }
  }

  // A canonical payload read as a request again.
  function AsRequest(c: Canonical): Request
  {
    Request(match c.content
            case NormalText(text) => TextContent(text)
            case NormalUrl(url) => UrlContent(url)
            case NormalShared(text, urls) => SharedContent(Shared(text, if urls == [] then None else Some(urls))),
            c.note, c.source)
  }

  lemma StripAllIdempotent(urls: seq<string>, isHttp: string -> bool)
    ensures StripAll(StripAll(urls)) == StripAll(urls)
    ensures forall i :: 0 <= i < |urls| && UrlOk(urls[i], isHttp) ==> UrlOk(StripAll(urls)[i], isHttp)
  {
    forall i | 0 <= i < |urls|
      ensures Strip(StripAll(urls)[i]) == StripAll(urls)[i]
    {
      StripIdempotent(urls[i]);
    }
  }

  lemma StripOptionIdempotent(raw: Option<string>)
    ensures StripOption(StripOption(raw)) == StripOption(raw)
  {
    if raw.Some? {
      StripIdempotent(raw.value);
    }
  }

  // Normalisation is a fixed point on its own output: the canonical payload of
  // an accepted request is accepted and is its own canonical payload.
  lemma CanonicalIsFixed(r: Request, isHttp: string -> bool)
    requires RequestOk(r, isHttp)
    ensures RequestOk(AsRequest(CanonicalOf(r)), isHttp)
    ensures CanonicalOf(AsRequest(CanonicalOf(r))) == CanonicalOf(r)
  {
    hide Strip, Distinct;
    StripOptionIdempotent(r.note);
    if r.source.Some? {
      StripOptionIdempotent(r.source.value.app);
      StripOptionIdempotent(r.source.value.title);
      StripOptionIdempotent(r.source.value.url);
    }
    match r.content
    case TextContent(text) => StripIdempotent(text);
    case UrlContent(url) => StripIdempotent(url);
    case SharedContent(shared) =>
      StripOptionIdempotent(shared.text);
      if shared.urls.Some? {
        StripAllIdempotent(shared.urls.value, isHttp);
      }
  }

  // ------------------------------------------------------------- which error

  // A text is refused as missing or as too long, a URL also as no web address, a
  // note as blank or too long; each by its own code.
  lemma ErrorsExactly(raw: string, field: string, isHttp: string -> bool)
    ensures NormalizeText(raw) ==
            if Strip(raw) == [] then Err(Error(422, "E_CAPTURE_TEXT_REQUIRED", "text"))
            else if |Strip(raw)| > 12000 then Err(Error(413, "E_CAPTURE_TEXT_TOO_LARGE", "text"))
            else Ok(Strip(raw))
    ensures NormalizeUrl(raw, field, isHttp) ==
            if Strip(raw) == [] then Err(Error(422, "E_CAPTURE_URL_INVALID", field))
            else if |Strip(raw)| > 2048 then Err(Error(413, "E_CAPTURE_URL_TOO_LARGE", field))
            else if !isHttp(Strip(raw)) then Err(Error(422, "E_CAPTURE_URL_INVALID", field))
            else Ok(Strip(raw))
    ensures NormalizeNote(Some(raw)) ==
            if Strip(raw) == [] then Err(Error(422, "E_CAPTURE_PAYLOAD_INVALID", "note"))
            else if |Strip(raw)| > 2000 then Err(Error(413, "E_CAPTURE_NOTE_TOO_LARGE", "note"))
            else Ok(Some(Strip(raw)))
    ensures NormalizeSourceField(Some(raw), field) ==
            if Strip(raw) == [] then Err(Error(422, "E_CAPTURE_SOURCE_INVALID", field))
            else if |Strip(raw)| > 512 then Err(Error(413, "E_CAPTURE_SOURCE_TOO_LARGE", field))
            else Ok(Some(Strip(raw)))
  {
    hide Strip;
  }

  // ------------------------------------------------------- what is kept of it

  // The same value, stripped.
  predicate StrippedOf(raw: Option<string>, kept: Option<string>)
  {
    match raw
    case None => kept == None
    case Some(value) => kept == Some(Strip(value))
  }

  // The canonical payload keeps every field of the request, stripped, and no more.
  lemma CanonicalExactly(r: Request)
    ensures var c := CanonicalOf(r);
            && StrippedOf(r.note, c.note)
            && (r.source.None? <==> c.source.None?)
            && (r.source.Some? ==>
                  && StrippedOf(r.source.value.app, c.source.value.app)
                  && StrippedOf(r.source.value.title, c.source.value.title)
                  && StrippedOf(r.source.value.url, c.source.value.url))
            && match r.content
               case TextContent(text) => c.content == NormalText(Strip(text))
               case UrlContent(url) => c.content == NormalUrl(Strip(url))
               case SharedContent(shared) =>
                 && c.content.NormalShared? && StrippedOf(shared.text, c.content.sharedText)
                 && |c.content.urls| == (if shared.urls.Some? then |shared.urls.value| else 0)
                 && forall i :: 0 <= i < |c.content.urls| ==> c.content.urls[i] == Strip(shared.urls.value[i])
  {
    hide Strip;
  }
}
