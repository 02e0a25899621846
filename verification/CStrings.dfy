/** C strings: the characters of a buffer that stand before the first NUL. */
module CStrings {

  function CString(s: seq<char>): string {
    if s == [] || s[0] == '\0' then [] else [s[0]] + CString(s[1..])
  }

  lemma {:induction false} CStringPrefix(s: seq<char>, n: nat)
    requires n < |s| && s[n] == '\0' && forall p :: 0 <= p < n ==> s[p] != '\0'
    ensures CString(s) == s[..n]
  {
    if n > 0 {
      CStringPrefix(s[1..], n - 1);
      assert s[..n] == [s[0]] + s[1..][..n - 1];
    }
  }

  lemma {:induction false} CStringAppend(a: string, b: seq<char>)
    requires '\0' !in a
    ensures CString(a + b) == a + CString(b)
  {
    if a == [] {
      assert a + b == b;
    } else {
      assert (a + b)[1..] == a[1..] + b;
      CStringAppend(a[1..], b);
    }
  }

  /** What is kept, and that all of it is kept exactly if there is no NUL. */
  lemma {:induction false} CStringIs(s: seq<char>)
    ensures CString(s) <= s && '\0' !in CString(s)
    ensures CString(s) == s <==> '\0' !in s
    ensures |CString(s)| < |s| ==> s[|CString(s)|] == '\0'
  {
    if s != [] && s[0] != '\0' {
      CStringIs(s[1..]);
      assert s == [s[0]] + s[1..];
      assert CString(s)[1..] == CString(s[1..]);
    }
  }
}
