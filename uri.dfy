/** The URI of a CogServer storage node, `cog://host[:port]/name`: the
    check made when the node is constructed and the slicing `open` does to
    find the host and port it connects to. The slicing is modelled as
    written, including its quirks. */
module Uri {
  import opened Outcomes
  import opened CString

  const Scheme: string := "cog://"
  const DefaultPort: string := "17001"

  /** What the node holds once construction succeeded: a URI that starts
      with the scheme and, having come from a C string, holds no NUL. */
  predicate IsCogUri(u: string)
  {
    Scheme <= u && '\0' !in u
  }

  /** `init`: accept a URI whose C-string view starts with `cog://` and
      store that view; anything else is an unknown URI. */
  function Init(uri: string): (r: Result<string>)
    ensures r.Ok? <==> Scheme <= CStr(uri, '\0')
    ensures r.Ok? ==> r.value == CStr(uri, '\0') && IsCogUri(r.value)
    ensures r.Err? ==> r.error == UnknownUri
  {
    StrNCmpPrefix(uri, Scheme);
    if StrNCmpEqual(uri, Scheme, |Scheme|) then Ok(CStr(uri, '\0')) else Err(UnknownUri)
  }

  /** A NUL-free URI with the scheme is accepted and stored unchanged. */
  lemma InitKeepsCogUri(rest: string)
    requires '\0' !in rest
    ensures Init(Scheme + rest) == Ok(Scheme + rest)
  {
    CStrNoNul(Scheme + rest, '\0');
  }

  /** `std::string::find_first_of(chars, from)`: the first index at or
      after `from` holding one of `chars`, or `None` (npos). */
  function FindFirstOf(s: string, chars: set<char>, from: nat): (r: Option<nat>)
    ensures r.Some? ==> from <= r.value < |s| && s[r.value] in chars
    ensures r.Some? ==> forall j :: from <= j < r.value ==> s[j] !in chars
    ensures r.None? ==> forall j :: from <= j < |s| ==> s[j] !in chars
    decreases |s| - from
  {
    if from >= |s| then None
    else if s[from] in chars then Some(from)
    else FindFirstOf(s, chars, from + 1)
  }

  /** `s` cut before its first character from `stops`, or all of `s`. */
  function Before(s: string, stops: set<char>): (r: string)
    ensures r <= s
    ensures forall j :: 0 <= j < |r| ==> r[j] !in stops
    ensures |r| == |s| || s[|r|] in stops
  {
    match FindFirstOf(s, stops, 0)
    case None => s
    case Some(i) => s[..i]
  }

  /** The three properties of `Before` pin its result down. */
  lemma BeforeUnique(s: string, stops: set<char>, x: string)
    requires x <= s
    requires forall j :: 0 <= j < |x| ==> x[j] !in stops
    requires |x| == |s| || s[|x|] in stops
    ensures Before(s, stops) == x
  {
  }

  /** The host `open` connects to: the text after `cog://` up to the first
      `:` or `/`. */
  function Host(u: string): (h: string)
    requires IsCogUri(u)
    ensures Scheme + h <= u
    ensures ':' !in h && '/' !in h
    ensures |Scheme| + |h| == |u| || u[|Scheme| + |h|] in {':', '/'}
  {
    var h := Before(u[|Scheme|..], {':', '/'});
    assert forall c :: c in h ==> c != ':' && c != '/' by {
      forall c | c in h ensures c != ':' && c != '/' {
        var j :| 0 <= j < |h| && h[j] == c;
      }
    }
    h
  }

  /** The colon `open` takes the port from: the first `:` at or after the
      end of the host, searched through the whole URI (past any `/`). */
  function PortColon(u: string): (r: Option<nat>)
    requires IsCogUri(u)
    ensures r.Some? ==> |Scheme| + |Host(u)| <= r.value < |u| && u[r.value] == ':'
    ensures r.Some? ==> forall j :: |Scheme| + |Host(u)| <= j < r.value ==> u[j] != ':'
    ensures r.None? ==> forall j :: |Scheme| + |Host(u)| <= j < |u| ==> u[j] != ':'
  {
    FindFirstOf(u, {':'}, |Scheme| + |Host(u)|)
  }

  /** The port `open` connects to: "17001" when there is no such colon,
      otherwise the text after it up to the next `/`. */
  function Port(u: string): (p: string)
    requires IsCogUri(u)
    ensures PortColon(u).None? ==> p == DefaultPort
    ensures PortColon(u).Some? ==> p <= u[PortColon(u).value + 1..] && '/' !in p
    ensures PortColon(u).Some? ==> var k := PortColon(u).value + 1 + |p|; k == |u| || u[k] == '/'
  {
    match PortColon(u)
    case None => DefaultPort
    case Some(j) =>
      Before(u[j + 1..], {'/'})
  }

  /** A path after the port changes neither host nor port:
      `cog://h:p/rest` and `cog://h:p` name the same server. */
  lemma {:induction false} PathDoesNotChangeTarget(h: string, p: string, rest: string)
    requires ':' !in h && '/' !in h && '/' !in p
    requires '\0' !in h && '\0' !in p && '\0' !in rest
    ensures IsCogUri(Scheme + h + ":" + p) && IsCogUri(Scheme + h + ":" + p + "/" + rest)
    ensures Host(Scheme + h + ":" + p) == h && Port(Scheme + h + ":" + p) == p
    ensures Host(Scheme + h + ":" + p + "/" + rest) == h && Port(Scheme + h + ":" + p + "/" + rest) == p
  {
    var a := Scheme + h + ":" + p;
    var b := a + "/" + rest;
    HostIs(a, h);
    HostIs(b, h);
    PortAfterHostColon(a, h, p);
    PortAfterHostColon(b, h, p);
  }

  /** With no `:` anywhere after the host, the port is the default. */
  lemma {:induction false} NoColonMeansDefaultPort(h: string, rest: string)
    requires ':' !in h && '/' !in h && ':' !in rest
    requires '\0' !in h && '\0' !in rest
    ensures IsCogUri(Scheme + h) && IsCogUri(Scheme + h + "/" + rest)
    ensures Host(Scheme + h) == h && Port(Scheme + h) == DefaultPort
    ensures Host(Scheme + h + "/" + rest) == h && Port(Scheme + h + "/" + rest) == DefaultPort
  {
    var a := Scheme + h;
    var b := a + "/" + rest;
    HostIs(a, h);
    HostIs(b, h);
    assert forall j :: |Scheme| + |h| <= j < |b| ==> b[j] == ("/" + rest)[j - |Scheme| - |h|];
  }

  /** The quirk of the colon search: it runs past the `/` that ends the
      host, so `cog://h/a:b` connects to port `b`. */
  lemma {:induction false} ColonInPathIsPort(h: string, a: string, b: string)
    requires ':' !in h && '/' !in h && ':' !in a && '/' !in b
    requires '\0' !in h && '\0' !in a && '\0' !in b
    ensures IsCogUri(Scheme + h + "/" + a + ":" + b)
    ensures Host(Scheme + h + "/" + a + ":" + b) == h
    ensures Port(Scheme + h + "/" + a + ":" + b) == b
  {
    var u := Scheme + h + "/" + a + ":" + b;
    HostIs(u, h);
    var c := |Scheme| + |h| + 1 + |a|;
    assert u[c] == ':';
    assert forall j :: |Scheme| + |h| <= j < c ==> u[j] == ("/" + a)[j - |Scheme| - |h|];
    assert PortColon(u) == Some(c);
    assert u[c + 1..] == b;
    BeforeUnique(b, {'/'}, b);
  }

  /** Helper: the host of `Scheme + h + tail` is `h` when `tail` is empty
      or starts with a `:` or `/`. */
  lemma HostIs(u: string, h: string)
    requires Scheme + h <= u && '\0' !in u
    requires ':' !in h && '/' !in h
    requires |Scheme| + |h| == |u| || u[|Scheme| + |h|] in {':', '/'}
    ensures IsCogUri(u) && Host(u) == h
  {
    assert Scheme <= u;
    assert u[|Scheme|..][..|h|] == h;
    BeforeUnique(u[|Scheme|..], {':', '/'}, h);
  }

  /** Helper: in `Scheme + h + ":" + p + tail` the port is `p` when `tail`
      is empty or starts with `/`. */
  lemma PortAfterHostColon(u: string, h: string, p: string)
    requires IsCogUri(u) && Host(u) == h && '/' !in p
    requires Scheme + h + ":" + p <= u
    requires |Scheme| + |h| + 1 + |p| == |u| || u[|Scheme| + |h| + 1 + |p|] == '/'
    ensures Port(u) == p
  {
    var c := |Scheme| + |h|;
    assert u[c] == ':';
    assert PortColon(u) == Some(c);
    assert u[c + 1..][..|p|] == p;
    BeforeUnique(u[c + 1..], {'/'}, p);
  }
}
