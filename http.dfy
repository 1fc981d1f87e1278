/**
 * The request side of handle_http (main.py:210-229): the connection check,
 * bookmark resolution and the scheme prefix. The transfer itself, and the
 * text it or its exception yields, belong to the HTTP library and are an
 * input of the model.
 */
module Http {
  import opened Options
  import opened Text
  import Bookmarks

  const NotConnected := "'Not Connected"

  /** The prefix that marks a URL as already carrying a scheme. */
  const SchemePrefix := "http"

  datatype Method = HttpGet | HttpPost

  /**
   * One request handed to the HTTP library: GET goes without a body or headers,
   * POST carries the session's data and a Content-Type header.
   */
  datatype Request = Request(kind: Method, url: string, data: Option<string>, contentType: Option<string>)

  function Scheme(secure: bool): string {
    if secure then "https://" else "http://"
  }

  /**
   * A URL that does not start with `http` gets `https://` or `http://` in
   * front; one that does is used as it is.
   */
  function Target(url: string, secure: bool): (r: string)
    ensures StartsWith(r, SchemePrefix)
    ensures EndsWith(r, url)
    ensures StartsWith(url, SchemePrefix) <==> r == url
  {
    if StartsWith(url, SchemePrefix) then url
    else
      var r := Scheme(secure) + url;
      assert r[..4] == SchemePrefix;
      assert r[|r| - |url|..] == url;
      r
  }

  /** Prefixing is idempotent, whatever the secure flag of the second pass. */
  lemma TargetIdempotent(url: string, secure: bool, secure': bool)
    ensures Target(Target(url, secure), secure') == Target(url, secure)
  {
  }

  /** Without a scheme, the secure flag alone chooses between https and http. */
  lemma TargetScheme(url: string, secure: bool)
    requires !StartsWith(url, SchemePrefix)
    ensures Target(url, secure) == Scheme(secure) + url
    ensures StartsWith(Target(url, secure), "https://") <==> secure
  {
    var r := Target(url, secure);
    if !secure {
      assert r[4] == ':';
    } else {
      assert r[..8] == "https://";
    }
  }

  /**
   * The test is on the text, not on a scheme: a host whose name starts with
   * `http` is sent without any scheme, even on GETS.
   */
  lemma HostStartingWithHttp()
    ensures Target("httpbin.org/get", true) == "httpbin.org/get"
  {
    assert StartsWith("httpbin.org/get", SchemePrefix);
  }

  /** The URL a request goes to: a bookmark key is replaced, then the scheme added. */
  function RequestUrl(bookmarks: map<string, string>, url: string, secure: bool): (r: string)
    ensures StartsWith(r, SchemePrefix)
    ensures EndsWith(r, Bookmarks.Resolve(bookmarks, url))
  {
    Target(Bookmarks.Resolve(bookmarks, url), secure)
  }

  /**
   * A stored bookmark is fetched at its URL, not at its key, with the
   * scheme added when the URL has none.
   */
  lemma RequestUrlOfBookmark(bookmarks: map<string, string>, key: string, url: string, secure: bool)
    requires StartsWith(key, Bookmarks.KeyPrefix)
    ensures RequestUrl(Bookmarks.Store(bookmarks, key, url), key, secure) == Target(url, secure)
  {
    Bookmarks.ResolveAfterStore(bookmarks, key, url);
  }
}
