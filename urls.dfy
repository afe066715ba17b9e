/**
 * The part of URL parsing (`new URL(s)`) that redirect-URI checking depends
 * on: an absolute URL `scheme://host[path][?query][#fragment]`, its origin and
 * its pathname. A string that is not of that form is `None`. The host and its
 * port are taken as written, without the validation `new URL` applies to them.
 */
module Urls {
  import opened Wrappers
  import opened Strings

  /** A parsed URL; the scheme is in lower case, the host keeps its port. */
  datatype Url = Url(scheme: string, host: string, pathname: string, query: string, fragment: string)

  /** The special schemes of the URL Standard: their empty path serialises as "/". */
  const SpecialSchemes: set<string> := {"ftp", "file", "http", "https", "ws", "wss"}

  /** The schemes whose origin is a tuple of scheme, host and port; every other origin is opaque. */
  const TupleOriginSchemes: set<string> := {"ftp", "http", "https", "ws", "wss"}

  /**
   * `url.origin`: scheme, "://" and the host with its port for the tuple
   * schemes; "null", the serialisation of an opaque origin, for every other
   * scheme, `file` included.
   */
  function Origin(u: Url): string
  {
    if u.scheme in TupleOriginSchemes then u.scheme + "://" + u.host else "null"
  }

  /** A scheme that starts with none of 'f', 'h' and 'w' has an opaque origin. */
  lemma OpaqueScheme(s: string)
    requires s != [] && s[0] != 'f' && s[0] != 'h' && s[0] != 'w'
    ensures s !in TupleOriginSchemes
  {
    assert forall t :: t in TupleOriginSchemes ==> t[0] in {'f', 'h', 'w'};
  }

  predicate IsAsciiLetter(c: char)
  {
    'a' <= c <= 'z' || 'A' <= c <= 'Z'
  }

  predicate IsSchemeChar(c: char)
  {
    IsAsciiLetter(c) || '0' <= c <= '9' || c == '+' || c == '-' || c == '.'
  }

  predicate IsScheme(s: string)
  {
    |s| > 0 && IsAsciiLetter(s[0]) && forall i :: 0 <= i < |s| ==> IsSchemeChar(s[i])
  }

  function LowerChar(c: char): char
  {
    if 'A' <= c <= 'Z' then (c as int + 32) as char else c
  }

  /** ASCII lower-casing, which the parser applies to the scheme. */
  function Lower(s: string): (r: string)
    ensures |r| == |s|
    ensures forall i :: 0 <= i < |s| ==> r[i] == LowerChar(s[i])
    ensures forall i :: 0 <= i < |r| ==> !('A' <= r[i] <= 'Z')
    ensures IsScheme(s) ==> IsScheme(r)
  {
    seq(|s|, i requires 0 <= i < |s| => LowerChar(s[i]))
  }

  /** Lower-casing text that has no upper-case letter changes nothing. */
  lemma LowerUnchanged(s: string)
    requires forall i :: 0 <= i < |s| ==> !('A' <= s[i] <= 'Z')
    ensures Lower(s) == s
  {
  }

  const SchemeEnd: set<char> := {':'}
  const HostEnd: set<char> := {'/', '?', '#'}
  const PathEnd: set<char> := {'?', '#'}

  function ParseUrl(s: string): (r: Option<Url>)
    ensures r.Some? ==> IsScheme(r.value.scheme) && forall i :: 0 <= i < |r.value.scheme| ==> !('A' <= r.value.scheme[i] <= 'Z')
  {
    var scheme := TakeUntil(s, SchemeEnd);
    if !IsScheme(scheme) || !StartsWith(s[|scheme|..], "://") then None
    else
      assert s[|scheme|..|scheme| + 3] == "://" by {
        assert s[|scheme|..][..3] == s[|scheme|..|scheme| + 3];
      }
      ParseAuthority(Lower(scheme), s[|scheme| + 3..])
  }

  /**
   * What follows "scheme://": a non-empty host (with port), which is all the
   * text up to the first '/', '?' or '#', then path, query and fragment.
   */
  function ParseAuthority(scheme: string, rest: string): (r: Option<Url>)
    ensures r.None? <==> rest == [] || rest[0] in HostEnd
    ensures r.Some? ==> r.value.scheme == scheme
    ensures r.Some? ==> r.value.host != [] && forall i :: 0 <= i < |r.value.host| ==> r.value.host[i] !in HostEnd
    ensures r.Some? ==> StartsWith(rest, r.value.host) && (|r.value.host| == |rest| || rest[|r.value.host|] in HostEnd)
    ensures r.Some? ==> r.value.pathname == [] || StartsWith(r.value.pathname, "/")
    ensures r.Some? && scheme in SpecialSchemes ==> StartsWith(r.value.pathname, "/")
    ensures r.Some? ==> forall i :: 0 <= i < |r.value.pathname| ==> r.value.pathname[i] !in PathEnd
  {
    var host := TakeUntil(rest, HostEnd);
    if host == [] then None
    else
      var afterHost := rest[|host|..];
      var afterPath := afterHost[|TakeUntil(afterHost, PathEnd)|..];
      Some(Url(scheme, host, Pathname(scheme, afterHost), QueryOf(afterPath), FragmentOf(afterPath)))
  }

  /**
   * The pathname of the text after the host, which is empty or starts with one
   * of `HostEnd`: the text up to any '?' or '#'; when that is empty, "/" for a
   * special scheme and "" for any other.
   */
  function Pathname(scheme: string, afterHost: string): (p: string)
    requires afterHost == [] || afterHost[0] in HostEnd
    ensures p == [] || StartsWith(p, "/")
    ensures scheme in SpecialSchemes ==> StartsWith(p, "/")
    ensures forall i :: 0 <= i < |p| ==> p[i] !in PathEnd
  {
    var path := TakeUntil(afterHost, PathEnd);
    if path == [] then (if scheme in SpecialSchemes then "/" else "") else path
  }

  /** The query: after a leading '?', up to any '#'. */
  function QueryOf(afterPath: string): string
  {
    if StartsWith(afterPath, "?") then TakeUntil(afterPath[1..], {'#'}) else []
  }

  /** The fragment: everything after the first '#' that is not in the query. */
  function FragmentOf(afterPath: string): string
  {
    var hashPart := if StartsWith(afterPath, "?") then afterPath[1 + |QueryOf(afterPath)|..] else afterPath;
    if hashPart == [] then [] else hashPart[1..]
  }

  predicate NoQueryOrFragment(s: string)
  {
    forall i :: 0 <= i < |s| ==> s[i] !in PathEnd
  }

  /** `s` is `scheme` followed by "://" and `rest`. */
  predicate SchemeAndRest(s: string, scheme: string, rest: string)
  {
    s == scheme + "://" + rest
  }

  /**
   * The model's parser succeeds exactly when `s` is a scheme, "://", and text
   * that starts with a host character.
   */
  lemma ParseUrlSomeIff(s: string)
    ensures ParseUrl(s).Some? <==>
              exists scheme, rest :: SchemeAndRest(s, scheme, rest) && IsScheme(scheme) && rest != [] && rest[0] !in HostEnd
  {
    if ParseUrl(s).Some? {
      ParsedUrlSplits(s);
    }
    if exists sc, rest :: SchemeAndRest(s, sc, rest) && IsScheme(sc) && rest != [] && rest[0] !in HostEnd {
      var sc, rest :| SchemeAndRest(s, sc, rest) && IsScheme(sc) && rest != [] && rest[0] !in HostEnd;
      SchemeIsTaken(sc, rest);
    }
  }

  lemma ParsedUrlSplits(s: string)
    requires ParseUrl(s).Some?
    ensures var scheme := TakeUntil(s, SchemeEnd);
            var rest := s[|scheme| + 3..];
            && SchemeAndRest(s, scheme, rest) && IsScheme(scheme) && rest != [] && rest[0] !in HostEnd
            && ParseUrl(s) == ParseAuthority(Lower(scheme), rest)
  {
    var scheme := TakeUntil(s, SchemeEnd);
    var rest := s[|scheme| + 3..];
    assert s[|scheme|..][..3] == "://";
    assert s == s[..|scheme|] + s[|scheme|..|scheme| + 3] + rest;
  }

  /** The parser reads a valid scheme back as the text up to its ':'. */
  lemma SchemeIsTaken(scheme: string, rest: string)
    requires IsScheme(scheme)
    ensures var s := scheme + "://" + rest;
            && TakeUntil(s, SchemeEnd) == scheme
            && ParseUrl(s) == ParseAuthority(Lower(scheme), rest)
  {
    var s := scheme + "://" + rest;
    assert forall i :: 0 <= i < |scheme| ==> scheme[i] !in SchemeEnd by {
      forall i | 0 <= i < |scheme| ensures scheme[i] !in SchemeEnd {
        assert IsSchemeChar(scheme[i]);
      }
    }
    assert s == scheme + ("://" + rest);
    TakeUntilAbsent(scheme, SchemeEnd);
    TakeUntilAppend(scheme, "://" + rest, SchemeEnd);
    assert s[|scheme|..] == "://" + rest;
    assert s[|scheme|..][..3] == "://";
    assert s[|scheme| + 3..] == rest;
  }

  /**
   * A URL written as a scheme, "://", a host and an absolute path without
   * query or fragment parses to exactly those parts, the scheme lower-cased.
   */
  lemma ParseOf(scheme: string, host: string, path: string)
    requires IsScheme(scheme)
    requires host != [] && forall i :: 0 <= i < |host| ==> host[i] !in HostEnd
    requires StartsWith(path, "/") && NoQueryOrFragment(path)
    ensures ParseUrl(scheme + "://" + host + path) == Some(Url(Lower(scheme), host, path, "", ""))
  {
    SchemeIsTaken(scheme, host + path);
    assert scheme + "://" + host + path == scheme + "://" + (host + path);
    TakeUntilAbsent(host, HostEnd);
    TakeUntilAppend(host, path, HostEnd);
    assert (host + path)[|host|..] == path;
    TakeUntilAbsent(path, PathEnd);
    assert path[|path|..] == [];
  }

  /**
   * A query or fragment appended to a parseable URL changes neither its origin
   * nor its pathname.
   */
  lemma QueryAndFragmentIgnored(base: string, tail: string)
    requires ParseUrl(base).Some? && NoQueryOrFragment(base)
    requires tail == [] || tail[0] in PathEnd
    ensures ParseUrl(base + tail).Some?
    ensures Origin(ParseUrl(base + tail).value) == Origin(ParseUrl(base).value)
    ensures ParseUrl(base + tail).value.pathname == ParseUrl(base).value.pathname
  {
    var s := base + tail;
    var scheme := TakeUntil(base, SchemeEnd);
    assert |scheme| < |base| by {
      assert base[|scheme|..][..3] == "://";
    }
    TakeUntilAppend(base, tail, SchemeEnd);
    var rest := base[|scheme| + 3..];
    DropOfAppend(base, tail, |scheme|);
    DropOfAppend(base, tail, |scheme| + 3);
    assert s[|scheme|..][..3] == base[|scheme|..][..3];
    assert NoQueryOrFragment(rest) by {
      forall i | 0 <= i < |rest| ensures rest[i] !in PathEnd {
        assert rest[i] == base[|scheme| + 3 + i];
      }
    }
    assert ParseUrl(base) == ParseAuthority(Lower(scheme), rest);
    assert ParseUrl(s) == ParseAuthority(Lower(scheme), rest + tail);
    AuthorityIgnoresTail(Lower(scheme), rest, tail);
  }

  lemma AuthorityIgnoresTail(scheme: string, rest: string, tail: string)
    requires ParseAuthority(scheme, rest).Some? && NoQueryOrFragment(rest)
    requires tail == [] || tail[0] in PathEnd
    ensures ParseAuthority(scheme, rest + tail).Some?
    ensures ParseAuthority(scheme, rest + tail).value.host == ParseAuthority(scheme, rest).value.host
    ensures ParseAuthority(scheme, rest + tail).value.pathname == ParseAuthority(scheme, rest).value.pathname
  {
    var host := TakeUntil(rest, HostEnd);
    if |host| == |rest| {
      assert host == rest;
    }
    TakeUntilAppend(rest, tail, HostEnd);
    var afterHost := rest[|host|..];
    DropOfAppend(rest, tail, |host|);
    var path := TakeUntil(afterHost, PathEnd);
    assert NoQueryOrFragment(afterHost) by {
      forall i | 0 <= i < |afterHost| ensures afterHost[i] !in PathEnd {
        assert afterHost[i] == rest[|host| + i];
      }
    }
    assert |path| == |afterHost|;
    TakeUntilAppend(afterHost, tail, PathEnd);
  }
}
