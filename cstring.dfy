/** The two places where the source goes through a C string: a `char*`
    converted to `std::string` stops at the first NUL, and `strncmp` stops
    comparing at a NUL or after `n` characters. */
module CString {

  /** The C-string view of a buffer: everything before the first `nul`. */
  function CStr<T(==)>(s: seq<T>, nul: T): (r: seq<T>)
    ensures r <= s
    ensures nul !in r
    ensures |r| < |s| ==> s[|r|] == nul
  {
    if s == [] || s[0] == nul then [] else [s[0]] + CStr(s[1..], nul)
  }

  /** A buffer without NUL reads back unchanged. */
  lemma CStrNoNul<T>(s: seq<T>, nul: T)
    requires nul !in s
    ensures CStr(s, nul) == s
  {
  }

  /** `strncmp(a, b, n) == 0` for two C strings held in `a` and `b`: the end
      of a sequence reads as a NUL, and the comparison stops at the first
      NUL the two share or after `n` characters. */
  function StrNCmpEqual(a: string, b: string, n: nat): bool
    decreases n
  {
    if n == 0 then true
    else
      var x := if a == [] then '\0' else a[0];
      var y := if b == [] then '\0' else b[0];
      x == y && (x == '\0' || StrNCmpEqual(a[1..], b[1..], n - 1))
  }

  /** Comparing `|b|` characters against a NUL-free `b` succeeds exactly
      when `b` is a prefix of the C-string view of `a`. */
  lemma {:induction false} StrNCmpPrefix(a: string, b: string)
    requires '\0' !in b
    ensures StrNCmpEqual(a, b, |b|) <==> b <= CStr(a, '\0')
  {
    if b != [] && a != [] && a[0] != '\0' {
      StrNCmpPrefix(a[1..], b[1..]);
      assert CStr(a, '\0') == [a[0]] + CStr(a[1..], '\0');
      if b <= CStr(a, '\0') {
        assert b[1..] <= CStr(a[1..], '\0');
      }
      if b[1..] <= CStr(a[1..], '\0') && a[0] == b[0] {
        assert b == [b[0]] + b[1..];
      }
    }
  }
}
