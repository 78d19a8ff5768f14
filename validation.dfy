/** Field-level rules of the contact form: the value is trimmed, a required
    field must not be blank, and an email field must match the address
    pattern `^[^\s@]+@[^\s@]+\.[^\s@]+$`. Everything here is a pure function
    of one field's `(value, type, required)`. */
module Validation {

  /** Message shown under a required field left blank ("this field is required"). */
  const RequiredMessage: string := "この項目は必須です"
  /** Message shown under a malformed email address ("please enter a valid email address"). */
  const EmailMessage: string := "有効なメールアドレスを入力してください"

  /** One form control as the validator sees it: its current value, its
      `type` property and whether it carries the `required` attribute. The
      property is the browser's normalised reading of the attribute. It is
      lower-cased, it reads `text` when the attribute is missing or unknown,
      and it reads `textarea` for a text area. */
  datatype Input = Input(value: string, inputType: string, required: bool)

  /** Outcome of validating one field: valid, or invalid with the message to show. */
  datatype Verdict = Ok | Error(message: string)

  // ----- whitespace and trimming -----

  /** The characters that `String.prototype.trim` strips and that `\s`
      matches in a regular expression: the same set in both places
      (white space and line terminators of ECMAScript). */
  predicate IsSpace(c: char) {
    c in SpaceChars
  }

  /** Tab, line feed, vertical tab, form feed, carriage return, space,
      no-break space, the Unicode space separators (U+1680, U+2000 to U+200A,
      U+202F, U+205F, U+3000), the line and paragraph separators and the
      byte order mark. */
  const SpaceChars: set<char> :=
    {'\t', '\n', '\U{000B}', '\U{000C}', '\r', ' ', '\U{00A0}', '\U{1680}',
     '\U{2000}', '\U{2001}', '\U{2002}', '\U{2003}', '\U{2004}', '\U{2005}',
     '\U{2006}', '\U{2007}', '\U{2008}', '\U{2009}', '\U{200A}',
     '\U{2028}', '\U{2029}', '\U{202F}', '\U{205F}', '\U{3000}', '\U{FEFF}'}

  /** A value made only of white space (the empty value included). */
  predicate Blank(s: string) {
    forall i :: 0 <= i < |s| ==> IsSpace(s[i])
  }

  /** Number of white-space characters at the start of `s`. */
  function LeadingSpaces(s: string): (n: nat)
    ensures n <= |s|
    ensures forall i :: 0 <= i < n ==> IsSpace(s[i])
    ensures n < |s| ==> !IsSpace(s[n])
  {
    if s == [] || !IsSpace(s[0]) then 0 else 1 + LeadingSpaces(s[1..])
  }

  /** Number of white-space characters at the end of `s`. */
  function TrailingSpaces(s: string): (n: nat)
    ensures n <= |s|
    ensures forall i :: |s| - n <= i < |s| ==> IsSpace(s[i])
    ensures n < |s| ==> !IsSpace(s[|s| - 1 - n])
  {
    if s == [] || !IsSpace(s[|s| - 1]) then 0 else 1 + TrailingSpaces(s[..|s| - 1])
  }

  /** `s` without its leading white space. */
  function TrimStart(s: string): (r: string)
    ensures r == s[LeadingSpaces(s)..]
    ensures forall i :: 0 <= i < |s| - |r| ==> IsSpace(s[i])
    ensures r != [] ==> !IsSpace(r[0])
  {
    s[LeadingSpaces(s)..]
  }

  /** `t` without its trailing white space. */
  function TrimEnd(t: string): (r: string)
    ensures |r| <= |t| && r == t[..|r|]
    ensures forall i :: |r| <= i < |t| ==> IsSpace(t[i])
    ensures r != [] ==> !IsSpace(r[|r| - 1])
  {
    t[..|t| - TrailingSpaces(t)]
  }

  /** What is left after both ends are trimmed is a slice of `s`, starting
      where its leading white space ends. */
  lemma TrimSlice(s: string)
    ensures LeadingSpaces(s) + |TrimEnd(TrimStart(s))| <= |s|
    ensures TrimEnd(TrimStart(s)) == s[LeadingSpaces(s)..LeadingSpaces(s) + |TrimEnd(TrimStart(s))|]
  {
    var lead, t := LeadingSpaces(s), TrimStart(s);
    var r := TrimEnd(t);
    assert t == s[lead..] && r == t[..|r|];
    assert s[lead..][..|r|] == s[lead..lead + |r|];
  }

  /** Everything cut from the end of `s` is white space. */
  lemma TrimCut(s: string)
    ensures forall i :: LeadingSpaces(s) + |TrimEnd(TrimStart(s))| <= i < |s| ==> IsSpace(s[i])
  {
    var lead, rest := LeadingSpaces(s), TrimStart(s);
    forall i | lead + |TrimEnd(rest)| <= i < |s| ensures IsSpace(s[i]) {
      assert s[i] == rest[i - lead];
    }
  }

  /** Trimming leaves nothing exactly when `s` is all white space, and what
      it leaves starts with a character that is not white space. */
  lemma TrimBlank(s: string)
    ensures TrimEnd(TrimStart(s)) == [] <==> Blank(s)
    ensures TrimEnd(TrimStart(s)) != [] ==> !IsSpace(TrimEnd(TrimStart(s))[0])
  {
    var rest := TrimStart(s);
    assert TrimEnd(rest) != [] ==> TrimEnd(rest)[0] == rest[0];
    assert Blank(s) ==> rest == [];
  }

  /** `value.trim()`: the longest middle part of `s` that neither starts nor
      ends with white space, once the white space around it is removed. */
  function Trim(s: string): (r: string)
    ensures r == [] <==> Blank(s)
    ensures r != [] ==> !IsSpace(r[0]) && !IsSpace(r[|r| - 1])
    ensures LeadingSpaces(s) + |r| <= |s|
    ensures r == s[LeadingSpaces(s)..LeadingSpaces(s) + |r|]
    ensures forall i :: 0 <= i < LeadingSpaces(s) ==> IsSpace(s[i])
    ensures forall i :: LeadingSpaces(s) + |r| <= i < |s| ==> IsSpace(s[i])
  {
    TrimSlice(s);
    TrimCut(s);
    TrimBlank(s);
    TrimEnd(TrimStart(s))
  }

  // ----- the email pattern -----

  /** A character that `[^\s@]` accepts. */
  predicate PlainChar(c: char) {
    !IsSpace(c) && c != '@'
  }

  predicate AllPlain(t: string) {
    forall i :: 0 <= i < |t| ==> PlainChar(t[i])
  }

  /** What `/^[^\s@]+@[^\s@]+\.[^\s@]+$/.test(s)` accepts, read off the
      pattern: three non-empty runs of plain characters, separated by a
      literal `@` at `at` and a literal `.` at `dot`. */
  ghost predicate MatchesEmailPattern(s: string): (m: bool)
    ensures m ==> 5 <= |s| && '@' in s && '.' in s
    ensures m ==> PlainChar(s[0]) && PlainChar(s[|s| - 1])
  {
    exists at: nat, dot: nat ::
      && 0 < at && at + 1 < dot && dot + 1 < |s|
      && s[at] == '@' && s[dot] == '.'
      && AllPlain(s[..at]) && AllPlain(s[at + 1..dot]) && AllPlain(s[dot + 1..])
  }

  /** Number of `@` characters in `s`. */
  function AtCount(s: string): nat {
    if s == [] then 0 else (if s[0] == '@' then 1 else 0) + AtCount(s[1..])
  }

  /** Position of the first `@` in `s`, or `|s|` when there is none. */
  function AtIndex(s: string): (i: nat)
    ensures i <= |s|
    ensures i < |s| ==> s[i] == '@'
    ensures forall k :: 0 <= k < i ==> s[k] != '@'
  {
    if s == [] then 0 else if s[0] == '@' then 0 else 1 + AtIndex(s[1..])
  }

  /** `d` holds a `.` that is neither its first nor its last character. */
  predicate HasInnerDot(d: string) {
    exists k :: 0 < k < |d| - 1 && d[k] == '.'
  }

  /** The address check at the level of characters: no white space, exactly
      one `@`, a non-empty part before it, and a domain after it with an
      inner `.`. */
  predicate IsEmailAddress(s: string) {
    && (forall i :: 0 <= i < |s| ==> !IsSpace(s[i]))
    && AtCount(s) == 1
    && var at := AtIndex(s);
       0 < at < |s| && HasInnerDot(s[at + 1..])
  }

  lemma {:induction false} AtCountAppend(a: string, b: string)
    ensures AtCount(a + b) == AtCount(a) + AtCount(b)
  {
    if a == [] {
      assert a + b == b;
    } else {
      assert (a + b)[1..] == a[1..] + b;
      AtCountAppend(a[1..], b);
    }
  }

  lemma {:induction false} AtCountNone(t: string)
    ensures AtCount(t) == 0 <==> forall i :: 0 <= i < |t| ==> t[i] != '@'
  {
    if t != [] {
      AtCountNone(t[1..]);
      assert forall i :: 1 <= i < |t| ==> t[i] == t[1..][i - 1];
    }
  }

  /** A string with exactly one `@` has no other `@` than its first. */
  lemma OnlyAt(s: string)
    requires AtCount(s) == 1
    ensures AtIndex(s) < |s|
    ensures forall i :: 0 <= i < |s| && i != AtIndex(s) ==> s[i] != '@'
  {
    var at := AtIndex(s);
    AtCountNone(s);
    var d := s[at + 1..];
    assert s == s[..at] + ([s[at]] + d);
    AtCountAppend(s[..at], [s[at]] + d);
    AtCountAppend([s[at]], d);
    AtCountNone(d);
    forall i | at < i < |s| ensures s[i] != '@' {
      assert s[i] == d[i - at - 1];
    }
  }

  /** Around the only `@` of an accepted string lie two plain runs. */
  lemma AcceptedParts(s: string)
    requires IsEmailAddress(s)
    ensures AllPlain(s[..AtIndex(s)]) && AllPlain(s[AtIndex(s) + 1..])
  {
    var at := AtIndex(s);
    OnlyAt(s);
    assert AllPlain(s[..at]) by {
      forall i | 0 <= i < at ensures PlainChar(s[..at][i]) {
        assert s[..at][i] == s[i];
      }
    }
    assert AllPlain(s[at + 1..]) by {
      var d := s[at + 1..];
      forall i | 0 <= i < |d| ensures PlainChar(d[i]) {
        assert d[i] == s[at + 1 + i];
      }
    }
  }

  /** Every string the character-level check accepts matches the pattern. */
  lemma EmailCheckSound(s: string)
    requires IsEmailAddress(s)
    ensures MatchesEmailPattern(s)
  {
    var at := AtIndex(s);
    AcceptedParts(s);
    var d := s[at + 1..];
    var k :| 0 < k < |d| - 1 && d[k] == '.';
    var dot := at + 1 + k;
    assert s[at + 1..dot] == d[..k];
    assert s[dot + 1..] == d[k + 1..];
    assert s[dot] == d[k];
  }

  /** Joining two runs of plain characters gives a run of plain characters. */
  lemma AllPlainAppend(a: string, b: string)
    requires AllPlain(a) && AllPlain(b)
    ensures AllPlain(a + b)
  {
  }

  /** A string of the shape `local "@" domain` whose parts contain no `@` and
      no white space has its only `@` at `|local|`. */
  lemma SingleAt(local: string, domain: string)
    requires AllPlain(local) && AllPlain(domain)
    ensures AtCount(local + "@" + domain) == 1
    ensures AtIndex(local + "@" + domain) == |local|
    ensures forall i :: 0 <= i < |local + "@" + domain| ==> !IsSpace((local + "@" + domain)[i])
    ensures (local + "@" + domain)[|local| + 1..] == domain
  {
    var s := local + "@" + domain;
    AtCountAppend(local + "@", domain);
    AtCountAppend(local, "@");
    AtCountNone(local);
    AtCountNone(domain);
    var first := AtIndex(s);
    assert s[|local|] == '@';
    forall i | 0 <= i < |s| ensures !IsSpace(s[i]) {
      if i < |local| {
        assert s[i] == local[i];
      } else if i > |local| {
        assert s[i] == domain[i - |local| - 1];
      }
    }
  }

  /** An address put together from three non-empty plain runs, as the
      pattern describes it, passes the character-level check. */
  lemma AssembledAddress(local: string, host: string, top: string)
    requires local != [] && host != [] && top != []
    requires AllPlain(local) && AllPlain(host) && AllPlain(top)
    ensures IsEmailAddress(local + "@" + (host + "." + top))
  {
    var domain := host + "." + top;
    assert AllPlain(".");
    AllPlainAppend(host, ".");
    AllPlainAppend(host + ".", top);
    SingleAt(local, domain);
    var s := local + "@" + domain;
    assert s[|local| + 1..] == domain;
    assert domain[|host|] == '.';
    assert HasInnerDot(domain);
  }

  /** `s` is the part before `at`, the `@` there, the part up to `dot`, the
      `.` there and the rest. */
  lemma Reassemble(s: string, at: nat, dot: nat)
    requires at < dot < |s| && s[at] == '@' && s[dot] == '.'
    ensures s == s[..at] + "@" + (s[at + 1..dot] + "." + s[dot + 1..])
  {
    assert s[at..] == [s[at]] + s[at + 1..];
    assert s[at + 1..] == s[at + 1..dot] + [s[dot]] + s[dot + 1..];
    assert s == s[..at] + s[at..];
  }

  /** Every string the pattern matches passes the character-level check. */
  lemma EmailCheckComplete(s: string)
    requires MatchesEmailPattern(s)
    ensures IsEmailAddress(s)
  {
    var at: nat, dot: nat :|
      && 0 < at && at + 1 < dot && dot + 1 < |s|
      && s[at] == '@' && s[dot] == '.'
      && AllPlain(s[..at]) && AllPlain(s[at + 1..dot]) && AllPlain(s[dot + 1..]);
    Reassemble(s, at, dot);
    AssembledAddress(s[..at], s[at + 1..dot], s[dot + 1..]);
  }

  /** The character-level check accepts exactly the strings the address
      pattern matches. */
  lemma EmailCheckIsPattern(s: string)
    ensures IsEmailAddress(s) <==> MatchesEmailPattern(s)
  {
    if IsEmailAddress(s) {
      EmailCheckSound(s);
    }
    if MatchesEmailPattern(s) {
      EmailCheckComplete(s);
    }
  }

  // ----- one field -----

  /** The decision `validateInput` takes for one field: first the required
      check on the trimmed value, then, for a non-empty email field, the
      address pattern, whose message replaces the first one. */
  function CheckField(f: Input): (v: Verdict)
    ensures f.required && Blank(f.value) ==> v == Error(RequiredMessage)
    ensures f.inputType == "email" && !Blank(f.value) ==>
              (v.Ok? <==> MatchesEmailPattern(Trim(f.value)))
    ensures v.Error? ==>
              || (f.required && Blank(f.value) && v.message == RequiredMessage)
              || (f.inputType == "email" && !Blank(f.value) && v.message == EmailMessage)
  {
    var value := Trim(f.value);
    var afterRequired := if f.required && value == [] then Error(RequiredMessage) else Ok;
    EmailCheckIsPattern(value);
    if f.inputType == "email" && value != [] && !IsEmailAddress(value) then Error(EmailMessage)
    else afterRequired
  }
}
