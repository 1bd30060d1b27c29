/**
 The audience tag normaliser: free text becomes a key of lower-case words joined by single
 underscores, or is refused.

 `fold` is the case folding of the whole text; only its effect on key characters matters.
 */
module TagKeys {
  import opened Options
  import PythonText

  /** What a key is made of. */
  predicate IsKeyChar(c: char) {
    'a' <= c <= 'z' || '0' <= c <= '9' || c == '_'
  }

  predicate KeyChars(s: string) {
    forall c :: c in s ==> IsKeyChar(c)
  }

  /** Folding leaves key characters alone. */
  ghost predicate Folds(fold: string -> string) {
    forall s :: KeyChars(s) ==> fold(s) == s
  }

  // ---------------------------------------------------------------- the pipeline

  function Underscored(s: string): string {
    if s == [] then [] else [if s[0] == '-' || s[0] == ' ' then '_' else s[0]] + Underscored(s[1..])
  }

  function Kept(s: string): string {
    if s == [] then [] else if IsKeyChar(s[0]) then [s[0]] + Kept(s[1..]) else Kept(s[1..])
  }

  /** Runs of underscores become one. */
  function Collapsed(s: string): string {
    if s == [] then [] else if s[0] == '_' && |s| > 1 && s[1] == '_' then Collapsed(s[1..])
    else [s[0]] + Collapsed(s[1..])
  }

  function WithoutLeading(s: string): string {
    if s != [] && s[0] == '_' then WithoutLeading(s[1..]) else s
  }

  function WithoutTrailing(s: string): string {
    if s != [] && s[|s| - 1] == '_' then WithoutTrailing(s[..|s| - 1]) else s
  }

  /** The words of the text, before joining. */
  function Cleaned(fold: string -> string, value: string): string {
    Kept(Underscored(fold(PythonText.Strip(value))))
  }

  function Joined(s: string): string {
    WithoutTrailing(WithoutLeading(Collapsed(s)))
  }

  predicate IsAlias(key: string) {
    key == "young_family" || key == "yosh_oila"
  }

  function Resolved(key: string): string {
    if IsAlias(key) then "family" else key
  }

  /** A letter, then 1 to 63 more key characters. */
  predicate IsKey(key: string) {
    2 <= |key| <= 64 && 'a' <= key[0] <= 'z' && KeyChars(key)
  }

  function Normalize(fold: string -> string, value: string): Option<string> {
    var key := Resolved(Joined(Cleaned(fold, value)));
    if IsKey(key) then Some(key) else None
  }

  // ---------------------------------------------------------------- words

  /** The maximal runs without an underscore. */
  function Words(s: string): (words: seq<string>)
    ensures s != [] && s[0] != '_' ==> words != []
  {
    if s == [] then []
    else
      var rest := Words(s[1..]);
      if s[0] == '_' then rest
      else if |s| > 1 && s[1] != '_' then [[s[0]] + rest[0]] + rest[1..]
      else [[s[0]]] + rest
  }

  ghost predicate NoDoubles(s: string) {
    forall i :: 0 <= i < |s| ==> SingleAt(s, i)
  }

  ghost predicate SingleAt(s: string, i: nat)
    requires i < |s|
  {
    i + 1 < |s| && s[i] == '_' ==> s[i + 1] != '_'
  }

  ghost predicate Unedged(s: string) {
    s != [] ==> s[0] != '_' && s[|s| - 1] != '_'
  }

  /** The normal form: a key with single inner underscores that is no alias. */
  ghost predicate IsNormal(key: string) {
    IsKey(key) && NoDoubles(key) && Unedged(key) && !IsAlias(key)
  }

  lemma {:induction false} KeptIsKeyChars(s: string)
    ensures KeyChars(Kept(s))
  {
    if s != [] {
      KeptIsKeyChars(s[1..]);
    }
  }

  lemma {:induction false} KeptKeeps(s: string)
    requires KeyChars(s)
    ensures Kept(s) == s
  {
    if s != [] {
      assert s[0] in s && KeyChars(s[1..]);
      KeptKeeps(s[1..]);
    }
  }

  lemma {:induction false} UnderscoredKeeps(s: string)
    requires KeyChars(s)
    ensures Underscored(s) == s
  {
    if s != [] {
      assert s[0] in s && KeyChars(s[1..]);
      UnderscoredKeeps(s[1..]);
    }
  }

  lemma {:induction false} CollapsedIsSingle(s: string)
    ensures var r := Collapsed(s);
            && NoDoubles(r) && Words(r) == Words(s)
            && (KeyChars(s) ==> KeyChars(r))
            && |r| <= |s| && (s != [] ==> r != [] && r[0] == s[0])
  {
    if s != [] {
      CollapsedIsSingle(s[1..]);
      if !(s[0] == '_' && |s| > 1 && s[1] == '_') {
        var r, rest := Collapsed(s), Collapsed(s[1..]);
        assert r[1..] == rest;
        forall i | 0 <= i < |r| ensures SingleAt(r, i) {
          if i > 0 {
            assert SingleAt(rest, i - 1);
          }
        }
      }
    }
  }

  lemma {:induction false} CollapsedKeeps(s: string)
    requires NoDoubles(s)
    ensures Collapsed(s) == s
  {
    if s != [] {
      assert SingleAt(s, 0);
      forall i | 0 <= i < |s[1..]| ensures SingleAt(s[1..], i) {
        assert SingleAt(s, i + 1);
      }
      CollapsedKeeps(s[1..]);
    }
  }

  lemma {:induction false} LeadingGoes(s: string)
    requires NoDoubles(s)
    ensures var r := WithoutLeading(s);
            && NoDoubles(r) && Words(r) == Words(s)
            && (KeyChars(s) ==> KeyChars(r))
            && (r != [] ==> r[0] != '_')
  {
    if s != [] && s[0] == '_' {
      forall i | 0 <= i < |s[1..]| ensures SingleAt(s[1..], i) {
        assert SingleAt(s, i + 1);
      }
      LeadingGoes(s[1..]);
    }
  }

  lemma {:induction false} WordsWithoutLast(s: string)
    requires s != [] && s[|s| - 1] == '_'
    ensures Words(s[..|s| - 1]) == Words(s)
  {
    if |s| > 1 {
      WordsWithoutLast(s[1..]);
      assert s[1..][..|s| - 2] == s[..|s| - 1][1..];
    }
  }

  lemma {:induction false} TrailingGoes(s: string)
    requires NoDoubles(s) && (s != [] ==> s[0] != '_')
    ensures var r := WithoutTrailing(s);
            && NoDoubles(r) && Words(r) == Words(s)
            && (KeyChars(s) ==> KeyChars(r))
            && Unedged(r)
  {
    if s != [] && s[|s| - 1] == '_' {
      var t := s[..|s| - 1];
      forall i | 0 <= i < |t| ensures SingleAt(t, i) {
        assert SingleAt(s, i);
      }
      WordsWithoutLast(s);
      TrailingGoes(t);
    }
  }

  /** Joining keeps the words and leaves single underscores between them. */
  lemma JoinedHasTheWords(s: string)
    ensures var r := Joined(s);
            && Words(r) == Words(s) && NoDoubles(r) && Unedged(r)
            && (KeyChars(s) ==> KeyChars(r))
  {
    CollapsedIsSingle(s);
    LeadingGoes(Collapsed(s));
    TrailingGoes(WithoutLeading(Collapsed(s)));
  }

  lemma FamilyIsNormal()
    ensures IsNormal("family")
  {
    assert forall i :: 0 <= i < 6 ==> SingleAt("family", i);
  }

  // ---------------------------------------------------------------- the pipeline character by character

  lemma {:induction false} CleaningDistributes(a: string, b: string)
    ensures Kept(Underscored(a + b)) == Kept(Underscored(a)) + Kept(Underscored(b))
  {
    if a == [] {
      assert a + b == b;
    } else {
      CleaningDistributes(a[1..], b);
      assert (a + b)[1..] == a[1..] + b;
    }
  }

  /** Separators become underscores, key characters stay, and anything else goes. */
  lemma CleanedChar(c: char)
    ensures Kept(Underscored([c])) ==
            if c == '-' || c == ' ' || c == '_' then "_"
            else if 'a' <= c <= 'z' || '0' <= c <= '9' then [c]
            else ""
  {
    assert Underscored([c]) == [if c == '-' || c == ' ' then '_' else c];
  }

  function JoinWords(words: seq<string>): string {
    if words == [] then "" else if |words| == 1 then words[0] else words[0] + "_" + JoinWords(words[1..])
  }

  lemma {:induction false} WordsArePlain(s: string)
    ensures forall w :: w in Words(s) ==> w != "" && '_' !in w
  {
    if s != [] {
      WordsArePlain(s[1..]);
      var rest := Words(s[1..]);
      if s[0] != '_' && |s| > 1 && s[1] != '_' {
        assert rest[0] in rest;
      }
    }
  }

  lemma LongerFirstWord(c: char, words: seq<string>)
    requires words != []
    ensures JoinWords([[c] + words[0]] + words[1..]) == [c] + JoinWords(words)
  {
    var more := [[c] + words[0]] + words[1..];
    assert more[1..] == words[1..];
    if |words| > 1 {
      assert [c] + words[0] + "_" + JoinWords(words[1..]) == [c] + (words[0] + "_" + JoinWords(words[1..]));
    }
  }

  lemma NewFirstWord(c: char, words: seq<string>)
    ensures JoinWords([[c]] + words) == if words == [] then [c] else [c] + "_" + JoinWords(words)
  {
    assert ([[c]] + words)[1..] == words;
  }

  /** A text with single inner underscores is its words joined. */
  lemma {:induction false} NormalIsJoined(s: string)
    requires NoDoubles(s) && Unedged(s)
    ensures JoinWords(Words(s)) == s
  {
    if |s| == 1 {
      assert Words(s) == [[s[0]]] + Words([]);
    } else if |s| > 1 {
      var n := if s[1] == '_' then 2 else 1;
      assert SingleAt(s, 1);
      forall i | 0 <= i < |s[n..]| ensures SingleAt(s[n..], i) {
        assert SingleAt(s, i + n);
      }
      NormalIsJoined(s[n..]);
      if n == 1 {
        LongerFirstWord(s[0], Words(s[1..]));
        assert s == [s[0]] + s[1..];
      } else {
        assert s[1..][1..] == s[2..] && Words(s[1..]) == Words(s[2..]);
        NewFirstWord(s[0], Words(s[2..]));
        assert s == [s[0]] + "_" + s[2..];
      }
    }
  }

  /**
   What the normaliser does in one line: the words of the cleaned text joined by underscores,
   an alias replaced, and accepted when it starts with a letter and has 2 to 64 characters.
   */
  lemma NormalizeIs(fold: string -> string, value: string)
    ensures var joined := JoinWords(Words(Cleaned(fold, value)));
            var key := if joined == "young_family" || joined == "yosh_oila" then "family" else joined;
            Normalize(fold, value) ==
            if 2 <= |key| <= 64 && 'a' <= key[0] <= 'z' then Some(key) else None
  {
    var cleaned := Cleaned(fold, value);
    KeptIsKeyChars(Underscored(fold(PythonText.Strip(value))));
    JoinedHasTheWords(cleaned);
    NormalIsJoined(Joined(cleaned));
    assert KeyChars("family");
  }

  // ---------------------------------------------------------------- main results

  /** Every accepted key is in normal form; unless an alias was replaced, it has the words of the text. */
  lemma KeysAreNormal(fold: string -> string, value: string)
    ensures var key := Normalize(fold, value);
            key.Some? ==>
              && IsNormal(key.value)
              && (IsAlias(Joined(Cleaned(fold, value))) || Words(key.value) == Words(Cleaned(fold, value)))
  {
    var cleaned := Cleaned(fold, value);
    KeptIsKeyChars(Underscored(fold(PythonText.Strip(value))));
    JoinedHasTheWords(cleaned);
    FamilyIsNormal();
  }

  lemma NormalStays(fold: string -> string, key: string)
    requires Folds(fold) && IsNormal(key)
    ensures Normalize(fold, key) == Some(key)
  {
    assert key[0] in key && key[|key| - 1] in key;
    PythonText.TightStripsToItself(key);
    UnderscoredKeeps(key);
    KeptKeeps(key);
    CollapsedKeeps(key);
  }

  /** Normalising an accepted key gives it back, aliases included. */
  lemma NormalizeIsIdempotent(fold: string -> string, value: string)
    requires Folds(fold)
    ensures var key := Normalize(fold, value); key.Some? ==> Normalize(fold, key.value) == key
  {
    KeysAreNormal(fold, value);
    if Normalize(fold, value).Some? {
      NormalStays(fold, Normalize(fold, value).value);
    }
  }

  /** The accepted results are exactly the normal forms. */
  lemma ResultsAreTheNormalForms(fold: string -> string, key: string)
    requires Folds(fold)
    ensures (exists value :: Normalize(fold, value) == Some(key)) <==> IsNormal(key)
  {
    if value :| Normalize(fold, value) == Some(key) {
      KeysAreNormal(fold, value);
    }
    if IsNormal(key) {
      NormalStays(fold, key);
    }
  }
}
