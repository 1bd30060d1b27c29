/** The callback codec: a button's payload packed into one string with a freshness window. */
module Callbacks {
  import opened Options
  import PythonText

  datatype Payload = Payload(namespace: string, action: string, ownerId: int, value: string, issuedAt: int)

  datatype Error = NegativeNumber | UnsupportedPayload | InvalidPayload | OwnerMismatch | UnsupportedAction | Expired

  // ---------------------------------------------------------------- numbers in base 36

  predicate IsDigit(c: char) { '0' <= c <= '9' || 'a' <= c <= 'z' || 'A' <= c <= 'Z' }

  function DigitValue(c: char): nat
    requires IsDigit(c)
  {
    if '0' <= c <= '9' then (c - '0') as nat
    else if 'a' <= c <= 'z' then (c - 'a') as nat + 10
    else (c - 'A') as nat + 10
  }

  function DigitChar(d: nat): char
    requires d < 36
  {
    if d < 10 then '0' + d as char else 'a' + (d - 10) as char
  }

  lemma DigitCharHasValue(d: nat)
    requires d < 36
    ensures IsDigit(DigitChar(d)) && DigitValue(DigitChar(d)) == d
    ensures DigitChar(d) != ':' && DigitChar(d) != '_' && !PythonText.IsSpace(DigitChar(d))
  {
  }

  /** The digits of a positive number, most significant first. */
  function Digits(n: nat): string {
    if n == 0 then "" else Digits(n / 36) + [DigitChar(n % 36)]
  }

  function Base36(n: nat): string {
    if n == 0 then "0" else Digits(n)
  }

  function Reversed(s: string): string {
    if s == [] then [] else Reversed(s[1..]) + [s[0]]
  }

  lemma ReversedOfMore(s: string, c: char)
    ensures Reversed(s + [c]) == [c] + Reversed(s)
  {
    if s != [] {
      assert (s + [c])[1..] == s[1..] + [c];
      ReversedOfMore(s[1..], c);
    }
  }

  method Base36Encode(value: int) returns (r: Result<string, Error>)
    ensures r == if value < 0 then Err(NegativeNumber) else Ok(Base36(value))
  {
    if value < 0 {
      return Err(NegativeNumber);
    }
    if value == 0 {
      return Ok("0");
    }
    var digits: string := [];
    var current := value;
    while current != 0
      invariant current >= 0
      invariant Digits(value) == Digits(current) + Reversed(digits)
    {
      var remainder := current % 36;
      current := current / 36;
      ReversedOfMore(digits, DigitChar(remainder));
      assert Digits(current) + [DigitChar(remainder)] + Reversed(digits)
          == Digits(current) + ([DigitChar(remainder)] + Reversed(digits));
      digits := digits + [DigitChar(remainder)];
    }
    assert Digits(value) == Reversed(digits);
    r := Ok(Reversed(digits));
  }

  /** Digits with single underscores between them, as `int` reads them. */
  function ParseDigits(s: string): Option<nat> {
    if s == [] || !IsDigit(s[|s| - 1]) then None
    else if |s| == 1 then Some(DigitValue(s[0]))
    else
      var rest := s[..|s| - 1];
      match ParseDigits(if rest[|rest| - 1] == '_' then rest[..|rest| - 1] else rest)
      case None => None
      case Some(n) => Some(n * 36 + DigitValue(s[|s| - 1]))
  }

  /** Python's `int(s, 36)` on ASCII text. */
  function Base36Decode(s: string): Option<int> {
    var t := PythonText.Strip(s);
    if t != [] && t[0] == '-' then
      var n := ParseDigits(t[1..]);
      if n.Some? then Some(0 - (n.value as int)) else None
    else
      var n := ParseDigits(if t != [] && t[0] == '+' then t[1..] else t);
      if n.Some? then Some(n.value) else None
  }

  /** Letters count alike in both cases. */
  lemma DigitMeans(c: char)
    ensures IsDigit(c) <==> '0' <= c <= '9' || 'a' <= c <= 'z' || 'A' <= c <= 'Z'
    ensures '0' <= c <= '9' ==> '0' + DigitValue(c) as char == c
    ensures 'a' <= c <= 'z' ==> 10 <= DigitValue(c) && 'a' + (DigitValue(c) - 10) as char == c
    ensures 'A' <= c <= 'Z' ==> 10 <= DigitValue(c) && 'A' + (DigitValue(c) - 10) as char == c
  {
  }

  /** A sign in front of digits is read as such. */
  lemma SignIsRead(n: nat)
    ensures Base36Decode("-" + Base36(n)) == Some(0 - n as int) && Base36Decode("+" + Base36(n)) == Some(n as int)
  {
    Base36IsPlain(n);
    DecodeUndoesEncode(n);
    if n > 0 {
      ParseUndoesDigits(n);
    }
    var minus, plus := "-" + Base36(n), "+" + Base36(n);
    assert minus[1..] == Base36(n) && plus[1..] == Base36(n);
    assert minus[|minus| - 1] == Base36(n)[|Base36(n)| - 1] && plus[|plus| - 1] == Base36(n)[|Base36(n)| - 1];
    PythonText.TightStripsToItself(minus);
    PythonText.TightStripsToItself(plus);
  }

  /** Characters of an encoded number. */
  ghost predicate Plain(s: string) {
    forall i :: 0 <= i < |s| ==> IsDigit(s[i]) && s[i] != ':' && s[i] != '_' && !PythonText.IsSpace(s[i])
  }

  lemma {:induction false} DigitsArePlain(n: nat)
    ensures Plain(Digits(n)) && (n > 0 ==> Digits(n) != [])
  {
    if n > 0 {
      DigitsArePlain(n / 36);
      DigitCharHasValue(n % 36);
    }
  }

  lemma {:induction false} ParseUndoesDigits(n: nat)
    requires n > 0
    ensures ParseDigits(Digits(n)) == Some(n)
  {
    DigitCharHasValue(n % 36);
    DigitsArePlain(n / 36);
    assert Digits(n)[..|Digits(n)| - 1] == Digits(n / 36);
    if n >= 36 {
      ParseUndoesDigits(n / 36);
      assert n == n / 36 * 36 + n % 36;
    } else {
      assert Digits(n) == [DigitChar(n)];
    }
  }

  lemma Base36IsPlain(n: nat)
    ensures Plain(Base36(n)) && Base36(n) != []
  {
    DigitsArePlain(n);
  }

  /** Decoding undoes encoding for every number. */
  lemma DecodeUndoesEncode(n: nat)
    ensures Base36Decode(Base36(n)) == Some(n)
  {
    Base36IsPlain(n);
    PythonText.TightStripsToItself(Base36(n));
    if n > 0 {
      ParseUndoesDigits(n);
    }
  }

  // ---------------------------------------------------------------- packing

  predicate Allowed(namespace: string, action: string) {
    match namespace
    case "menu" => action in ["search", "filters", "mini_app", "soon", "help", "back", "cancel"]
    case "nlp" => action in ["start", "confirm", "edit", "cancel"]
    case "wizard" => action in ["start", "skip", "back", "cancel", "basis_total", "basis_any", "renovation",
                                "audience", "page", "reset"]
    case "filter" => action in ["list", "view", "save", "run", "edit", "update", "enable", "disable",
                                "delete_confirm", "delete", "cancel"]
    case "source" => action in ["start", "cancel"]
    case "referral" => action in ["link"]
    case _ => false
  }

  /** The parts with a colon between each two. */
  function Join(parts: seq<string>): string {
    if parts == [] then "" else if |parts| == 1 then parts[0] else parts[0] + ":" + Join(parts[1..])
  }

  function Pack(p: Payload, now: int): Result<string, Error> {
    var issuedAt := if p.issuedAt != 0 then p.issuedAt else now;
    if p.ownerId < 0 || issuedAt < 0 then Err(NegativeNumber)
    else Ok(Join(["v1", p.namespace, p.action, Base36(p.ownerId), Base36(issuedAt), p.value]))
  }

  /** `s.split(":", n)`. */
  function Split(s: string, n: nat): seq<string> {
    if n == 0 || ':' !in s then [s]
    else
      var i := FirstColon(s);
      [s[..i]] + Split(s[i + 1..], n - 1)
  }

  function FirstColon(s: string): (i: nat)
    requires ':' in s
    ensures i < |s| && s[i] == ':' && ':' !in s[..i]
  {
    if s[0] == ':' then 0
    else
      assert s == [s[0]] + s[1..];
      FirstColon(s[1..]) + 1
  }

  predicate Fresh(issuedAt: int, now: int, maxAge: int) {
    issuedAt <= now + 60 && now - issuedAt <= maxAge
  }

  function Unpack(value: string, expectedOwner: Option<int>, now: int, maxAge: int): Result<Payload, Error> {
    var parts := Split(value, 5);
    if |parts| != 6 || parts[0] != "v1" then Err(UnsupportedPayload)
    else
      var owner, issued := Base36Decode(parts[3]), Base36Decode(parts[4]);
      if owner.None? || issued.None? then Err(InvalidPayload)
      else if expectedOwner.Some? && owner != expectedOwner then Err(OwnerMismatch)
      else if !Allowed(parts[1], parts[2]) then Err(UnsupportedAction)
      else if !Fresh(issued.value, now, maxAge) then Err(Expired)
      else Ok(Payload(parts[1], parts[2], owner.value, parts[5], issued.value))
  }

  // ---------------------------------------------------------------- round trip

  lemma SplitOnce(a: string, b: string, n: nat)
    requires ':' !in a && n > 0
    ensures Split(a + ":" + b, n) == [a] + Split(b, n - 1)
  {
    var s := a + ":" + b;
    assert s[|a|] == ':';
    var i := FirstColon(s);
    forall k | 0 <= k < i ensures s[k] != ':' {
      assert s[..i][k] == s[k];
    }
    forall k | 0 <= k < |a| ensures s[k] != ':' {
      assert s[k] == a[k] && a[k] in a;
    }
    assert s[..i] == a && s[i + 1..] == b;
  }

  /** Splitting undoes joining when only the last part may contain the separator. */
  lemma {:induction false} SplitUndoesJoin(parts: seq<string>)
    requires parts != [] && forall k :: 0 <= k < |parts| - 1 ==> ':' !in parts[k]
    ensures Split(Join(parts), |parts| - 1) == parts
  {
    if |parts| > 1 {
      SplitUndoesJoin(parts[1..]);
      SplitOnce(parts[0], Join(parts[1..]), |parts| - 1);
    }
  }

  /** What a packed payload is taken apart into. */
  lemma PackedParts(p: Payload, now: int)
    requires ':' !in p.namespace && ':' !in p.action && p.ownerId >= 0 && p.issuedAt > 0
    ensures Pack(p, now).Ok?
    ensures Split(Pack(p, now).value, 5) ==
            ["v1", p.namespace, p.action, Base36(p.ownerId), Base36(p.issuedAt), p.value]
  {
    Base36IsPlain(p.ownerId);
    Base36IsPlain(p.issuedAt);
    SplitUndoesJoin(["v1", p.namespace, p.action, Base36(p.ownerId), Base36(p.issuedAt), p.value]);
  }

  /**
   Unpacking a packed payload gives it back, colons in the value and all, exactly when its
   action is allowed, it is fresh, and its owner is the expected one.
   */
  lemma RoundTrip(p: Payload, packedAt: int, expectedOwner: Option<int>, now: int, maxAge: int)
    requires ':' !in p.namespace && ':' !in p.action && p.ownerId >= 0 && p.issuedAt > 0
    ensures Pack(p, packedAt).Ok?
    ensures Unpack(Pack(p, packedAt).value, expectedOwner, now, maxAge) == Ok(p) <==>
            && (expectedOwner.Some? ==> expectedOwner.value == p.ownerId)
            && Allowed(p.namespace, p.action)
            && p.issuedAt <= now + 60 && now - p.issuedAt <= maxAge
  {
    PackedParts(p, packedAt);
    DecodeUndoesEncode(p.ownerId);
    DecodeUndoesEncode(p.issuedAt);
  }

  /** No namespace or action that is allowed contains the separator. */
  lemma AllowedHasNoColon(namespace: string, action: string)
    requires Allowed(namespace, action)
    ensures ':' !in namespace && ':' !in action
  {
  }

  /** The packed text field by field; only negative numbers are refused. */
  lemma PackedText(p: Payload, now: int)
    ensures var issuedAt := if p.issuedAt == 0 then now else p.issuedAt;
            Pack(p, now) ==
            if p.ownerId < 0 || issuedAt < 0 then Err(NegativeNumber)
            else Ok("v1" + ":" + (p.namespace + ":" + (p.action + ":" + (
                    Base36(p.ownerId) + ":" + (Base36(issuedAt) + ":" + p.value)))))
  {
    var issuedAt := if p.issuedAt == 0 then now else p.issuedAt;
    if p.ownerId >= 0 && issuedAt >= 0 {
      var owner, issued := Base36(p.ownerId), Base36(issuedAt);
      JoinFirst("v1", [p.namespace, p.action, owner, issued, p.value]);
      JoinFirst(p.namespace, [p.action, owner, issued, p.value]);
      JoinFirst(p.action, [owner, issued, p.value]);
      JoinFirst(owner, [issued, p.value]);
      JoinFirst(issued, [p.value]);
    }
  }

  lemma JoinFirst(part: string, parts: seq<string>)
    requires parts != []
    ensures Join([part] + parts) == part + ":" + Join(parts)
  {
    assert ([part] + parts)[1..] == parts;
  }

  /** Digits are 0 to 9 and a to z, and each place counts 36 times the next. */
  lemma Base36Places(n: nat, d: nat)
    requires d < 36
    ensures Base36(d) == [if d < 10 then '0' + d as char else 'a' + (d - 10) as char]
    ensures n > 0 ==> Base36(n * 36 + d) == Base36(n) + [if d < 10 then '0' + d as char else 'a' + (d - 10) as char]
  {
    assert Digits(0) == "";
    if n > 0 {
      assert (n * 36 + d) / 36 == n && (n * 36 + d) % 36 == d;
    }
  }

  /** A button is refused for another owner, an unknown action, or an age outside the window, in that order. */
  lemma RefusedIff(p: Payload, packedAt: int, expectedOwner: Option<int>, now: int, maxAge: int)
    requires ':' !in p.namespace && ':' !in p.action && p.ownerId >= 0 && p.issuedAt > 0
    ensures Pack(p, packedAt).Ok?
    ensures var r := Unpack(Pack(p, packedAt).value, expectedOwner, now, maxAge);
            var mine := expectedOwner == None || expectedOwner == Some(p.ownerId);
            var expired := p.issuedAt > now + 60 || now - p.issuedAt > maxAge;
            && (r == Err(OwnerMismatch) <==> !mine)
            && (r == Err(UnsupportedAction) <==> mine && !Allowed(p.namespace, p.action))
            && (r == Err(Expired) <==> mine && Allowed(p.namespace, p.action) && expired)
            && (r == Ok(p) <==> mine && Allowed(p.namespace, p.action) && !expired)
  {
    PackedParts(p, packedAt);
    DecodeUndoesEncode(p.ownerId);
    DecodeUndoesEncode(p.issuedAt);
  }

  /** Text without six parts or the version, or with a part that is no number, is refused before anything else. */
  lemma MalformedIff(value: string, expectedOwner: Option<int>, now: int, maxAge: int)
    ensures var parts, r := Split(value, 5), Unpack(value, expectedOwner, now, maxAge);
            && (r == Err(UnsupportedPayload) <==> |parts| != 6 || parts[0] != "v1")
            && (r == Err(InvalidPayload) <==>
                  |parts| == 6 && parts[0] == "v1"
                  && (Base36Decode(parts[3]) == None || Base36Decode(parts[4]) == None))
  {
  }

  lemma PackIsInjective(p: Payload, q: Payload, now: int)
    requires Allowed(p.namespace, p.action) && p.ownerId >= 0 && p.issuedAt > 0
    requires Allowed(q.namespace, q.action) && q.ownerId >= 0 && q.issuedAt > 0
    requires Pack(p, now) == Pack(q, now)
    ensures p == q
  {
    AllowedHasNoColon(p.namespace, p.action);
    AllowedHasNoColon(q.namespace, q.action);
    PackedParts(p, now);
    PackedParts(q, now);
    var parts := Split(Pack(p, now).value, 5);
    DecodeUndoesEncode(p.ownerId);
    DecodeUndoesEncode(q.ownerId);
    DecodeUndoesEncode(p.issuedAt);
    DecodeUndoesEncode(q.issuedAt);
    assert parts[1] == p.namespace == q.namespace && parts[2] == p.action == q.action;
    assert parts[3] == Base36(p.ownerId) == Base36(q.ownerId) && parts[4] == Base36(p.issuedAt) == Base36(q.issuedAt);
    assert parts[5] == p.value == q.value;
  }

  /** Nothing unpacks that is not allowed, fresh and the expected owner's. */
  lemma UnpackedIsValid(value: string, expectedOwner: Option<int>, now: int, maxAge: int)
    requires Unpack(value, expectedOwner, now, maxAge).Ok?
    ensures var p := Unpack(value, expectedOwner, now, maxAge).value;
            && Allowed(p.namespace, p.action)
            && p.issuedAt <= now + 60 && now - p.issuedAt <= maxAge
            && (expectedOwner.Some? ==> p.ownerId == expectedOwner.value)
  {
  }
}
