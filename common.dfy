/** Shared vocabulary of the route handlers: optional values, results,
    roles, the caller's session, HTTP-style responses and the small
    string utilities the handlers use (trim, ASCII lower-casing,
    decimal digits). */
module Common {

  datatype Option<T> = None | Some(value: T)

  /** Outcome of a computation that may throw (the thrown message is kept). */
  datatype Result<T> = Success(value: T) | Failure(error: string)

  /** Document identifiers (Mongo ObjectIds rendered as strings). */
  type Id = string

  datatype Role = Parent | Educator | Admin

  /** The decoded session token of the caller. Verifying the JWT is not modelled:
      a request either carries a valid session (Some) or not (None). */
  datatype AuthUser = AuthUser(userId: Id, email: string, role: Role)

  /** What a route handler answers: a success status with a body, or an error
      status with its message. */
  datatype Response<T> = Ok(status: nat, body: T) | Fail(status: nat, message: string)

  // Sequence splits, stated once for any element type: the solver proves
  // them in a small context instead of at every loop step.

  lemma SplitLast<T>(s: seq<T>)
    requires s != []
    ensures s == s[..|s| - 1] + [s[|s| - 1]]
  {
  }

  lemma PrefixStep<T>(s: seq<T>, i: nat)
    requires i < |s|
    ensures s[..i + 1] == s[..i] + [s[i]]
  {
  }

  lemma DropLast<T>(s: seq<T>, x: T)
    ensures (s + [x])[..|s|] == s && (s + [x])[|s|] == x
  {
  }

  lemma AppendAssoc<T>(a: seq<T>, b: seq<T>, c: seq<T>)
    ensures (a + b) + c == a + (b + c)
  {
  }

  lemma DropPrefix<T>(a: seq<T>, b: seq<T>)
    ensures (a + b)[|a|..] == b
  {
  }

  lemma SuffixStep<T>(s: seq<T>, i: nat)
    requires i < |s|
    ensures s[i..] == [s[i]] + s[i + 1..]
  {
  }

  /** The error messages the handlers share. */
  const NotAuthenticated: string := "Non authentifié"
  const NotAuthorized: string := "Non autorisé"
  const ServerError: string := "Erreur serveur"
  const InvalidType: string := "Type d'événement invalide"

  /** JavaScript truthiness of an optional string field: present and non-empty. */
  predicate Truthy(s: Option<string>)
  {
    s.Some? && s.value != ""
  }

  predicate IsStaff(role: Role)
  {
    role == Educator || role == Admin
  }

  /** The role strings accepted by the user schema. */
  function RoleOf(s: string): (r: Option<Role>)
    ensures r.Some? <==> s in {"parent", "educator", "admin"}
  {
    if s == "parent" then Some(Parent)
    else if s == "educator" then Some(Educator)
    else if s == "admin" then Some(Admin)
    else None
  }

  // ---------------------------------------------------------------------
  // String.prototype.trim, restricted to ASCII white space

  predicate IsSpace(c: char)
  {
    c == ' ' || c == '\t' || c == '\n' || c == '\r' || c == '\U{0B}' || c == '\U{0C}'
  }

  predicate AllSpace(s: string)
  {
    forall i :: 0 <= i < |s| ==> IsSpace(s[i])
  }

  function TrimStart(s: string): string
  {
    if s != [] && IsSpace(s[0]) then TrimStart(s[1..]) else s
  }

  function TrimEnd(s: string): string
  {
    if s != [] && IsSpace(s[|s| - 1]) then TrimEnd(s[..|s| - 1]) else s
  }

  function Trim(s: string): string
  {
    TrimEnd(TrimStart(s))
  }

  lemma {:induction false} TrimStartShape(s: string)
    ensures |TrimStart(s)| <= |s|
    ensures TrimStart(s) == s[|s| - |TrimStart(s)|..]
    ensures AllSpace(s[..|s| - |TrimStart(s)|])
    ensures TrimStart(s) == [] || !IsSpace(TrimStart(s)[0])
  {
    if s != [] && IsSpace(s[0]) {
      TrimStartShape(s[1..]);
      var t := TrimStart(s[1..]);
      assert s[..|s| - |t|] == [s[0]] + s[1..][..|s| - 1 - |t|];
    }
  }

  lemma {:induction false} TrimEndShape(s: string)
    ensures |TrimEnd(s)| <= |s|
    ensures TrimEnd(s) == s[..|TrimEnd(s)|]
    ensures AllSpace(s[|TrimEnd(s)|..])
    ensures TrimEnd(s) == [] || !IsSpace(TrimEnd(s)[|TrimEnd(s)| - 1])
  {
    if s != [] && IsSpace(s[|s| - 1]) {
      var p := s[..|s| - 1];
      TrimEndShape(p);
      var t := TrimEnd(p);
      assert s[|t|..] == p[|t|..] + [s[|s| - 1]];
    }
  }

  /** What is left after trimming neither starts nor ends with white space,
      and it is empty exactly when the input is all white space. */
  lemma TrimShape(s: string)
    ensures Trim(s) == [] || (!IsSpace(Trim(s)[0]) && !IsSpace(Trim(s)[|Trim(s)| - 1]))
    ensures Trim(s) == [] <==> AllSpace(s)
  {
    TrimStartShape(s);
    var a := TrimStart(s);
    TrimEndShape(a);
    if Trim(s) != [] {
      assert Trim(s)[0] == a[0];
      assert !IsSpace(s[|s| - |a|]);
    } else {
      assert a[|Trim(s)|..] == a;
      assert a == [];
      assert s[..|s|] == s;
    }
  }

  lemma {:induction false} TrimStartIdle(s: string)
    requires s == [] || !IsSpace(s[0])
    ensures TrimStart(s) == s
  {
  }

  lemma {:induction false} TrimEndIdle(s: string)
    requires s == [] || !IsSpace(s[|s| - 1])
    ensures TrimEnd(s) == s
  {
  }

  /** Trimming only removes characters. */
  lemma TrimChars(s: string)
    ensures forall c :: c in Trim(s) ==> c in s
  {
    TrimStartShape(s);
    var a := TrimStart(s);
    TrimEndShape(a);
    forall c | c in Trim(s) ensures c in s {
      var k :| 0 <= k < |Trim(s)| && Trim(s)[k] == c;
      assert a[k] == c;
      assert s[|s| - |a| + k] == c;
    }
  }

  /** Trimming twice is trimming once. */
  lemma TrimIdempotent(s: string)
    ensures Trim(Trim(s)) == Trim(s)
  {
    TrimShape(s);
    var t := Trim(s);
    TrimStartIdle(t);
    TrimEndIdle(t);
  }

  // ---------------------------------------------------------------------
  // String length as JavaScript counts it

  /** JavaScript's `length`: UTF-16 code units, two for a character beyond
      the Basic Multilingual Plane. */
  function JsLength(s: string): (n: nat)
    ensures |s| <= n <= 2 * |s|
    ensures (forall i :: 0 <= i < |s| ==> s[i] as int < 0x1_0000) ==> n == |s|
  {
    if s == [] then 0
    else (if s[0] as int < 0x1_0000 then 1 else 2) + JsLength(s[1..])
  }

  /** Three characters can make six code units: "😀😀😀" has length 6. */
  lemma AstralLength()
    ensures |"\U{1F600}\U{1F600}\U{1F600}"| == 3 && JsLength("\U{1F600}\U{1F600}\U{1F600}") == 6
  {
    var s := "\U{1F600}\U{1F600}\U{1F600}";
    assert s[1..][1..][1..] == [];
  }

  // ---------------------------------------------------------------------
  // ASCII toLowerCase and case-insensitive equality

  function LowerChar(c: char): char
  {
    if 'A' <= c <= 'Z' then (c as int + 32) as char else c
  }

  function Lower(s: string): (r: string)
    ensures |r| == |s|
  {
    seq(|s|, i requires 0 <= i < |s| => LowerChar(s[i]))
  }

  /** An anchored, escaped, case-insensitive regular expression `^label$` with
      flag `i` matches exactly the strings equal to `label` up to case. */
  predicate SameIgnoringCase(a: string, b: string)
  {
    Lower(a) == Lower(b)
  }

  lemma LowerIdempotent(s: string)
    ensures Lower(Lower(s)) == Lower(s)
  {
  }

  /** Lower-casing keeps white space where it is, so it commutes with trimming:
      `s.trim().toLowerCase()` and the schema's lowercase-then-trim agree. */
  lemma LowerTrimCommute(s: string)
    ensures Lower(Trim(s)) == Trim(Lower(s))
  {
    LowerTrimStart(s);
    LowerTrimEnd(TrimStart(s));
  }

  lemma {:induction false} LowerTrimStart(s: string)
    ensures Lower(TrimStart(s)) == TrimStart(Lower(s))
  {
    if s != [] && IsSpace(s[0]) {
      assert Lower(s)[1..] == Lower(s[1..]);
      LowerTrimStart(s[1..]);
    }
  }

  lemma {:induction false} LowerTrimEnd(s: string)
    ensures Lower(TrimEnd(s)) == TrimEnd(Lower(s))
  {
    if s != [] && IsSpace(s[|s| - 1]) {
      assert Lower(s)[..|s| - 1] == Lower(s[..|s| - 1]);
      LowerTrimEnd(s[..|s| - 1]);
    }
  }

  // ---------------------------------------------------------------------
  // Decimal digits

  predicate IsDigit(c: char)
  {
    '0' <= c <= '9'
  }

  predicate AllDigits(s: string)
  {
    forall i :: 0 <= i < |s| ==> IsDigit(s[i])
  }

  function DigitChar(n: nat): char
    requires n < 10
  {
    ('0' as int + n) as char
  }

  function DigitValue(c: char): nat
    requires IsDigit(c)
  {
    c as int - '0' as int
  }

  /** Decimal rendering of a natural number, without leading zeros
      (JavaScript's `${n}` for a non-negative integer). */
  function NatToString(n: nat): (r: string)
    decreases n
  {
    if n < 10 then [DigitChar(n)] else NatToString(n / 10) + [DigitChar(n % 10)]
  }

  /** Value of a string of decimal digits. */
  function DecimalValue(s: string): nat
    requires AllDigits(s)
    decreases |s|
  {
    if s == [] then 0 else DecimalValue(s[..|s| - 1]) * 10 + DigitValue(s[|s| - 1])
  }

  /** Reading back a rendered number gives the number. */
  lemma {:induction false} DecimalRoundTrip(n: nat)
    ensures AllDigits(NatToString(n)) && NatToString(n) != []
    ensures DecimalValue(NatToString(n)) == n
    decreases n
  {
    if n >= 10 {
      DecimalRoundTrip(n / 10);
      var s := NatToString(n);
      assert s[..|s| - 1] == NatToString(n / 10);
    }
  }
}
