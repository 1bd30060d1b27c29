/** The parts of Python's string methods that the program relies on. */
module PythonText {
  /** `str.isspace` for one character: what `strip` removes. */
  predicate IsSpace(c: char) {
    || '\t' <= c <= '\r' || '\U{1c}' <= c <= ' ' || c == '\U{85}' || c == '\U{a0}' || c == '\U{1680}'
    || '\U{2000}' <= c <= '\U{200a}' || c == '\U{2028}' || c == '\U{2029}'
    || c == '\U{202f}' || c == '\U{205f}' || c == '\U{3000}'
  }

  /** Where `splitlines` breaks. */
  predicate IsLineBreak(c: char) {
    '\n' <= c <= '\r' || '\U{1c}' <= c <= '\U{1e}' || c == '\U{85}' || c == '\U{2028}' || c == '\U{2029}'
  }

  function Rstrip(s: string): string {
    if s != [] && IsSpace(s[|s| - 1]) then Rstrip(s[..|s| - 1]) else s
  }

  function Lstrip(s: string): string {
    if s != [] && IsSpace(s[0]) then Lstrip(s[1..]) else s
  }

  /** White space only. */
  ghost predicate Blank(s: string) {
    forall c :: c in s ==> IsSpace(c)
  }

  /** `rstrip` keeps a prefix, drops white space only, and leaves none at the end. */
  lemma {:induction false} RstripDropsSpace(s: string)
    ensures var r := Rstrip(s);
            && r <= s
            && (r != [] ==> !IsSpace(r[|r| - 1]))
            && Blank(s[|r|..])
  {
    if s != [] && IsSpace(s[|s| - 1]) {
      RstripDropsSpace(s[..|s| - 1]);
      assert s[|Rstrip(s)|..] == s[..|s| - 1][|Rstrip(s)|..] + [s[|s| - 1]];
    }
  }

  /** `lstrip` keeps a suffix, drops white space only, and leaves none in front. */
  lemma {:induction false} LstripDropsSpace(s: string)
    ensures var r := Lstrip(s);
            && |r| <= |s| && s == s[..|s| - |r|] + r
            && (r != [] ==> !IsSpace(r[0]))
            && Blank(s[..|s| - |r|])
  {
    if s != [] && IsSpace(s[0]) {
      LstripDropsSpace(s[1..]);
      var n := |s| - |Lstrip(s)|;
      assert s[..n] == [s[0]] + s[1..][..n - 1];
    }
  }

  function Strip(s: string): string {
    Lstrip(Rstrip(s))
  }

  /** Stripping leaves nothing exactly when there is only white space. */
  lemma BlankStripsToNothing(s: string)
    ensures Strip(s) == [] <==> Blank(s)
  {
    var r := Rstrip(s);
    RstripDropsSpace(s);
    LstripDropsSpace(r);
    assert s == r + s[|r|..];
    if Strip(s) == [] {
      assert r[..|r|] == r;
      forall c | c in s ensures IsSpace(c) {
        assert c in r || c in s[|r|..];
      }
    } else {
      var first := Strip(s)[0];
      assert first in Strip(s) && first in r;
      assert first in s;
    }
  }

  /** Stripping takes white space off both ends and nothing else. */
  lemma StripIsTight(s: string)
    ensures var r := Strip(s); r != [] ==> !IsSpace(r[0]) && !IsSpace(r[|r| - 1])
  {
    RstripDropsSpace(s);
    LstripDropsSpace(Rstrip(s));
    if Strip(s) != [] {
      assert Strip(s)[|Strip(s)| - 1] == Rstrip(s)[|Rstrip(s)| - 1];
    }
  }

  lemma TightStripsToItself(s: string)
    requires s != [] ==> !IsSpace(s[0]) && !IsSpace(s[|s| - 1])
    ensures Strip(s) == s && Rstrip(s) == s
  {
  }

  /** Order of strings by code points. */
  predicate Less(a: string, b: string) {
    b != [] && (a == [] || a[0] < b[0] || (a[0] == b[0] && Less(a[1..], b[1..])))
  }

  lemma {:induction false} LessIsAsymmetric(a: string, b: string)
    ensures !(Less(a, b) && Less(b, a))
  {
    if a != [] && b != [] {
      LessIsAsymmetric(a[1..], b[1..]);
    }
  }

  lemma {:induction false} LessIsTotal(a: string, b: string)
    ensures a == b || Less(a, b) || Less(b, a)
  {
    if a != [] && b != [] {
      LessIsTotal(a[1..], b[1..]);
      assert a == [a[0]] + a[1..] && b == [b[0]] + b[1..];
    }
  }

  lemma {:induction false} LessIsTransitive(a: string, b: string, c: string)
    requires Less(a, b) && Less(b, c)
    ensures Less(a, c)
  {
    if a != [] && a[0] == b[0] == c[0] {
      LessIsTransitive(a[1..], b[1..], c[1..]);
    }
  }
}
