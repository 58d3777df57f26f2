/** Which stream addresses the daemon accepts. One char stands for one byte of the request. */
module StreamSource {
  import opened Bytes

  const MAX_URL_BYTES: nat := 4096

  datatype Spec = Spec(scheme: string, title: string, rtspTransport: bool)

  datatype UrlError = BadText | NoSchemeOrAuthority | UnsupportedScheme | MalformedScheme | BadAuthority

  const SCHEMES: map<string, string> := map[
    "http" := "HTTP/HLS/DASH/MJPEG",
    "https" := "HTTPS/HLS/DASH/MJPEG",
    "rtmp" := "RTMP", "rtmps" := "RTMPS", "rtmpe" := "RTMPE",
    "rtmpt" := "RTMPT", "rtmpte" := "RTMPTE", "rtmpts" := "RTMPTS",
    "rtsp" := "RTSP", "rtsps" := "RTSPS",
    "srt" := "SRT", "rist" := "RIST",
    "rtp" := "RTP", "srtp" := "SRTP",
    "udp" := "UDP MPEG-TS/RTP", "tcp" := "TCP MPEG-TS",
    "mmsh" := "MMSH", "mmst" := "MMST"
  ]

  predicate IsControl(c: char)
  {
    c < ' ' || c == '\U{7f}'
  }

  predicate SafeText(s: string)
  {
    forall i :: 0 <= i < |s| ==> !IsControl(s[i])
  }

  predicate HasControl(s: string) { !SafeText(s) }

  function Lower(c: char): char
  {
    if 'A' <= c <= 'Z' then (c as int + 32) as char else c
  }

  function Lowercase(s: string): string
  {
    seq(|s|, i requires 0 <= i < |s| => Lower(s[i]))
  }

  predicate IsSchemeChar(c: char)
  {
    'a' <= c <= 'z' || '0' <= c <= '9'
  }

  /** The first occurrence of "://" at or after `from`, or |s|. */
  function FindSeparator(s: string, from: nat): (r: nat)
    requires from <= |s|
    ensures from <= r <= |s|
    ensures r < |s| ==> "://" <= s[r..]
    ensures forall i :: from <= i < r ==> !("://" <= s[i..])
    decreases |s| - from
  {
    if from == |s| || s[from..] == "" then |s|
    else if "://" <= s[from..] then from
    else FindSeparator(s, from + 1)
  }

  /** The first of '/', '?' and '#' at or after `from`, or |s|. */
  function AuthorityEnd(s: string, from: nat): (r: nat)
    requires from <= |s|
    ensures from <= r <= |s|
    ensures r < |s| ==> EndsAuthority(s[r])
    ensures forall i :: from <= i < r ==> !EndsAuthority(s[i])
    decreases |s| - from
  {
    if from == |s| then |s|
    else if EndsAuthority(s[from]) then from
    else AuthorityEnd(s, from + 1)
  }

  predicate EndsAuthority(c: char) { c == '/' || c == '?' || c == '#' }

  function ParseStreamSourceUrl(url: string): Result<Spec, UrlError>
  {
    if url == "" || |url| > MAX_URL_BYTES || HasControl(url) then Failure(BadText)
    else
      var separator := FindSeparator(url, 0);
      if separator == |url| || separator == 0 || separator + 3 >= |url| then Failure(NoSchemeOrAuthority)
      else
        var scheme := Lowercase(url[..separator]);
        if scheme !in SCHEMES then Failure(UnsupportedScheme)
        else if exists i :: 0 <= i < |scheme| && !IsSchemeChar(scheme[i]) then Failure(MalformedScheme)
        else
          var authority := AuthorityEnd(url, separator + 3) - separator - 3;
          if authority == 0 || authority > 1024 then Failure(BadAuthority)
          else Success(Spec(scheme, SCHEMES[scheme], scheme == "rtsp" || scheme == "rtsps"))
  }

  lemma AcceptedUrlIsPlain(url: string)
    requires ParseStreamSourceUrl(url).Success?
    ensures 0 < |url| <= MAX_URL_BYTES
    ensures SafeText(url)
  {
  }

  /** No known scheme has a character the later test would refuse, so that test never fails. */
  lemma NoSchemeIsMalformed(url: string)
    ensures ParseStreamSourceUrl(url) != Failure(MalformedScheme)
  {
    hide FindSeparator, AuthorityEnd, HasControl, Lowercase;
    var separator := FindSeparator(url, 0);
    var scheme := Lowercase(url[..separator]);
    if scheme in SCHEMES {
      KnownSchemes(scheme);
    }
  }

  lemma KnownSchemes(s: string)
    requires s in SCHEMES
    ensures forall i :: 0 <= i < |s| ==> IsSchemeChar(s[i])
  {
    assert s in {"http", "https", "rtmp", "rtmps", "rtmpe", "rtmpt"}
           || s in {"rtmpte", "rtmpts", "rtsp", "rtsps", "srt", "rist"}
           || s in {"rtp", "srtp", "udp", "tcp", "mmsh", "mmst"};
  }

  // ----- Which addresses are accepted

  /** The schemes the controller lets its user choose. */
  const NETWORK_SCHEMES: set<string> := {
    "http", "https", "rtmp", "rtmps", "rtmpe", "rtmpt", "rtmpte", "rtmpts",
    "rtsp", "rtsps", "srt", "rist", "rtp", "srtp", "udp", "tcp", "mmsh",
    "mmst"
  }

  /** Controller and daemon know the same schemes. */
  lemma SchemesAgree()
    ensures SCHEMES.Keys == NETWORK_SCHEMES
  {
  }

  /** scheme "://" authority rest, where the rest is empty or a path, a query or a fragment. */
  predicate IsAddress(url: string, scheme: string, authority: string, rest: string)
  {
    && url == scheme + ("://" + (authority + rest))
    && authority != "" && |authority| <= 1024 && (forall i :: 0 <= i < |authority| ==> !EndsAuthority(authority[i]))
    && (rest == "" || EndsAuthority(rest[0]))
  }

  lemma KnownHasNoColon(scheme: string)
    requires Lowercase(scheme) in SCHEMES
    ensures ':' !in scheme
  {
    KnownSchemes(Lowercase(scheme));
    forall i | 0 <= i < |scheme| ensures scheme[i] != ':' {
      assert IsSchemeChar(Lowercase(scheme)[i]);
    }
  }

  lemma SeparatorOf(scheme: string, after: string)
    requires ':' !in scheme
    ensures FindSeparator(scheme + ("://" + after), 0) == |scheme|
  {
    hide FindSeparator;
    var url := scheme + ("://" + after);
    assert url[|scheme|..] == "://" + after;
    forall i | 0 <= i < |scheme| ensures !("://" <= url[i..]) {
      assert url[i..][0] == scheme[i];
    }
  }

  lemma AuthorityEndOf(url: string, scheme: string, authority: string, rest: string)
    requires IsAddress(url, scheme, authority, rest)
    ensures |scheme| + 3 <= |url| && AuthorityEnd(url, |scheme| + 3) == |scheme| + 3 + |authority|
  {
    hide AuthorityEnd, EndsAuthority;
    var from := |scheme| + 3;
    var end := from + |authority|;
    assert |url| == end + |rest|;
    forall i | from <= i < end ensures !EndsAuthority(url[i]) {
      assert url[i] == authority[i - from];
    }
    if rest != "" {
      assert url[end] == rest[0];
    }
  }

  lemma GrammarIsAccepted(url: string, scheme: string, authority: string, rest: string)
    requires IsAddress(url, scheme, authority, rest) && Lowercase(scheme) in SCHEMES
    requires |url| <= MAX_URL_BYTES && SafeText(url)
    ensures var known := Lowercase(scheme);
            ParseStreamSourceUrl(url) == Success(Spec(known, SCHEMES[known], known == "rtsp" || known == "rtsps"))
  {
    hide FindSeparator, AuthorityEnd, SafeText, Lowercase;
    KnownHasNoColon(scheme);
    SeparatorOf(scheme, authority + rest);
    AuthorityEndOf(url, scheme, authority, rest);
    assert url[..|scheme|] == scheme;
    KnownSchemes(Lowercase(scheme));
    SchemeIsNotEmpty(scheme);
  }

  lemma SchemeIsNotEmpty(scheme: string)
    requires Lowercase(scheme) in SCHEMES
    ensures scheme != ""
  {
    assert forall s :: s in SCHEMES ==> |s| >= 3;
    assert |Lowercase(scheme)| == |scheme|;
  }

  lemma AcceptedIsGrammar(url: string) returns (scheme: string, authority: string, rest: string)
    requires ParseStreamSourceUrl(url).Success?
    ensures IsAddress(url, scheme, authority, rest) && Lowercase(scheme) in SCHEMES
  {
    hide FindSeparator, AuthorityEnd, SafeText, Lowercase;
    var separator := FindSeparator(url, 0);
    var end := AuthorityEnd(url, separator + 3);
    scheme, authority, rest := url[..separator], url[separator + 3..end], url[end..];
    assert url[separator..] == "://" + url[separator + 3..];
    assert url[separator + 3..] == authority + rest;
  }

  /** Exactly which addresses are accepted, and as what. */
  lemma AcceptedAddresses(url: string, spec: Spec)
    ensures ParseStreamSourceUrl(url) == Success(spec)
       <==> |url| <= 4096 && SafeText(url)
            && exists scheme, authority, rest ::
                 IsAddress(url, scheme, authority, rest) && Lowercase(scheme) in NETWORK_SCHEMES
                 && spec == Spec(Lowercase(scheme), SCHEMES[Lowercase(scheme)],
                                 Lowercase(scheme) in {"rtsp", "rtsps"})
  {
    hide ParseStreamSourceUrl, IsAddress, Lowercase;
    SchemesAgree();
    if ParseStreamSourceUrl(url).Success? {
      AcceptedUrlIsPlain(url);
      var scheme, authority, rest := AcceptedIsGrammar(url);
      GrammarIsAccepted(url, scheme, authority, rest);
    }
    if |url| <= 4096 && SafeText(url) {
      forall scheme, authority, rest | IsAddress(url, scheme, authority, rest) && Lowercase(scheme) in NETWORK_SCHEMES
        ensures var known := Lowercase(scheme);
                ParseStreamSourceUrl(url) == Success(Spec(known, SCHEMES[known], known == "rtsp" || known == "rtsps")) {
        GrammarIsAccepted(url, scheme, authority, rest);
      }
    }
  }
}
