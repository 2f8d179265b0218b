/**
 * The contact form's field check `validateField` and the two patterns it
 * uses, `isValidEmail` (`/^[^\s@]+@[^\s@]+\.[^\s@]+$/`) and `isValidPhone`
 * (`/^[\d\s\-\(\)\+]{10,}$/`), as predicates on strings.
 */
module FormValidation {

  /** The characters JavaScript's `\s` matches, which are also the ones
      `String.prototype.trim` removes: white space and line terminators. */
  predicate IsSpace(c: char)
  {
    || c == '\t' || c == '\n' || c == '\U{000B}' || c == '\U{000C}' || c == '\r'
    || c == ' ' || c == '\U{00A0}' || c == '\U{1680}'
    || ('\U{2000}' <= c <= '\U{200A}')
    || c == '\U{2028}' || c == '\U{2029}' || c == '\U{202F}' || c == '\U{205F}'
    || c == '\U{3000}' || c == '\U{FEFF}'
  }

  predicate Blank(s: string)
  {
    forall k :: 0 <= k < |s| ==> IsSpace(s[k])
  }

  /** `s` without its leading white space. */
  function TrimStart(s: string): (r: string)
    ensures |r| <= |s| && r == s[|s| - |r|..]
    ensures r == [] || !IsSpace(r[0])
    ensures Blank(s[..|s| - |r|])
  {
    if |s| > 0 && IsSpace(s[0]) then TrimStart(s[1..]) else s
  }

  /** `s` without its trailing white space. */
  function TrimEnd(s: string): (r: string)
    ensures |r| <= |s| && r == s[..|r|]
    ensures r == [] || !IsSpace(r[|r| - 1])
    ensures Blank(s[|r|..])
  {
    if |s| > 0 && IsSpace(s[|s| - 1]) then TrimEnd(s[..|s| - 1]) else s
  }

  /** `String.prototype.trim`: the slice of `s` left once white space is
      stripped from both ends. */
  function Trim(s: string): (r: string)
    ensures r == [] || (!IsSpace(r[0]) && !IsSpace(r[|r| - 1]))
    ensures exists i :: 0 <= i <= |s| - |r| && r == s[i..i + |r|] && Blank(s[..i]) && Blank(s[i + |r|..])
  {
    var t := TrimStart(s);
    var r := TrimEnd(t);
    var i := |s| - |t|;
    assert r == s[i..i + |r|];
    assert s[i + |r|..] == t[|r|..];
    r
  }

  /** Trimming leaves nothing exactly when the string is all white space. */
  lemma TrimEmptyIffBlank(s: string)
    ensures Trim(s) == [] <==> Blank(s)
  {
    var r := Trim(s);
    var i :| 0 <= i <= |s| - |r| && r == s[i..i + |r|] && Blank(s[..i]) && Blank(s[i + |r|..]);
    if r == [] {
      forall k | 0 <= k < |s|
        ensures IsSpace(s[k])
      {
        if k < i {
          assert s[k] == s[..i][k];
        } else {
          assert s[k] == s[i..][k - i];
        }
      }
    } else {
      assert s[i] == r[0];
    }
  }

  /** The slice `Trim` keeps is determined by its two ends not being white space. */
  lemma {:induction false} TrimIdempotent(s: string)
    ensures Trim(Trim(s)) == Trim(s)
  {
    var r := Trim(s);
    var t := TrimStart(r);
    if r != [] {
      assert TrimStart(r) == r;
      assert TrimEnd(r) == r;
    } else {
      assert TrimStart(r) == [];
    }
  }

  /** A character `[^\s@]` matches. */
  predicate IsAddressChar(c: char)
  {
    !IsSpace(c) && c != '@'
  }

  /** A non-empty run of `[^\s@]`, as `[^\s@]+` matches it. */
  predicate IsAddressRun(s: string)
  {
    |s| > 0 && forall k :: 0 <= k < |s| ==> IsAddressChar(s[k])
  }

  /** What `[^\s@]+\.[^\s@]+$` matches: two runs around some dot. */
  predicate IsDomain(t: string)
  {
    exists j | 0 < j < |t| :: t[j] == '.' && IsAddressRun(t[..j]) && IsAddressRun(t[j + 1..])
  }

  /** `isValidEmail`: the whole string matches `^[^\s@]+@[^\s@]+\.[^\s@]+$`. */
  predicate IsValidEmail(s: string)
  {
    exists i | 0 < i < |s| :: s[i] == '@' && IsAddressRun(s[..i]) && IsDomain(s[i + 1..])
  }

  /** The pattern in plain terms: no white space, exactly one `@` with
      something before it, and a dot after it that is neither right after
      the `@` nor the last character. */
  ghost predicate EmailShape(s: string)
  {
    && (forall k :: 0 <= k < |s| ==> !IsSpace(s[k]))
    && exists i ::
         && 0 < i < |s| && s[i] == '@'
         && (forall k :: 0 <= k < |s| && k != i ==> s[k] != '@')
         && (exists j :: i + 1 < j < |s| - 1 && s[j] == '.')
  }

  lemma EmailPatternMeansShape(s: string)
    requires IsValidEmail(s)
    ensures EmailShape(s)
  {
    var i :| 0 < i < |s| && s[i] == '@' && IsAddressRun(s[..i]) && IsDomain(s[i + 1..]);
    var t := s[i + 1..];
    var j :| 0 < j < |t| && t[j] == '.' && IsAddressRun(t[..j]) && IsAddressRun(t[j + 1..]);
    forall k | 0 <= k < |s| && k != i
      ensures IsAddressChar(s[k])
    {
      if k < i {
        assert s[k] == s[..i][k];
      } else if k < i + 1 + j {
        assert s[k] == t[..j][k - i - 1];
      } else if k > i + 1 + j {
        assert s[k] == t[j + 1..][k - i - 2 - j];
      }
    }
    assert s[i + 1 + j] == '.';
  }

  lemma ShapeMeansEmailPattern(s: string)
    requires EmailShape(s)
    ensures IsValidEmail(s)
  {
    var i :| 0 < i < |s| && s[i] == '@'
      && (forall k :: 0 <= k < |s| && k != i ==> s[k] != '@')
      && exists j :: i + 1 < j < |s| - 1 && s[j] == '.';
    var j :| i + 1 < j < |s| - 1 && s[j] == '.';
    var t := s[i + 1..];
    var d := j - i - 1;
    assert t[d] == '.';
    assert IsAddressRun(s[..i]) by {
      forall k | 0 <= k < i ensures IsAddressChar(s[..i][k]) {
        assert s[..i][k] == s[k];
      }
    }
    assert IsAddressRun(t[..d]) by {
      forall k | 0 <= k < d ensures IsAddressChar(t[..d][k]) {
        assert t[..d][k] == s[i + 1 + k];
      }
    }
    var u := t[d + 1..];
    assert IsAddressRun(u) by {
      forall k | 0 <= k < |u| ensures IsAddressChar(u[k]) {
        assert u[k] == s[j + 1 + k];
      }
    }
    assert IsDomain(t);
  }

  /** `isValidEmail` holds exactly of the strings of that shape. */
  lemma EmailCharacterization(s: string)
    ensures IsValidEmail(s) <==> EmailShape(s)
  {
    if IsValidEmail(s) {
      EmailPatternMeansShape(s);
    }
    if EmailShape(s) {
      ShapeMeansEmailPattern(s);
    }
  }

  /** A character `[\d\s\-\(\)\+]` matches. */
  predicate IsPhoneChar(c: char)
  {
    ('0' <= c <= '9') || IsSpace(c) || c == '-' || c == '(' || c == ')' || c == '+'
  }

  /** `isValidPhone`: the whole string is at least ten such characters. */
  predicate IsValidPhone(s: string)
  {
    |s| >= 10 && forall k :: 0 <= k < |s| ==> IsPhoneChar(s[k])
  }

  /** The attributes `validateField` reads from a form control: whether it
      has `required`, its `type` and its raw `value`. */
  datatype Field = Field(required: bool, kind: string, value: string)

  /** The three checks, in the order `validateField` applies them. */
  datatype Rule = MissingRequired | BadEmail | BadPhone

  function Rank(rule: Rule): nat
  {
    match rule
    case MissingRequired => 0
    case BadEmail => 1
    case BadPhone => 2
  }

  /** Whether a rule objects to the trimmed value `v` of a field with the
      given `required` flag and `type`. */
  predicate Fails(required: bool, kind: string, v: string, rule: Rule)
  {
    match rule
    case MissingRequired => required && v == []
    case BadEmail => kind == "email" && v != [] && !IsValidEmail(v)
    case BadPhone => kind == "tel" && v != [] && !IsValidPhone(v)
  }

  datatype Verdict = Accepted | Rejected(rule: Rule)

  /** The message `showFieldError` attaches for a rejected field. */
  function ErrorMessage(rule: Rule): string
  {
    match rule
    case MissingRequired => "Este campo é obrigatório"
    case BadEmail => "Por favor, insira um e-mail válido"
    case BadPhone => "Por favor, insira um telefone válido"
  }

  /** The first rule, in priority order, that objects to the value `v` of `f`. */
  function FirstFailure(required: bool, kind: string, v: string): (verdict: Verdict)
    ensures verdict.Accepted? <==> forall rule :: !Fails(required, kind, v, rule)
    ensures verdict.Rejected? ==>
              && Fails(required, kind, v, verdict.rule)
              && forall rule :: Rank(rule) < Rank(verdict.rule) ==> !Fails(required, kind, v, rule)
  {
    if required && v == [] then
      assert Fails(required, kind, v, MissingRequired);
      Rejected(MissingRequired)
    else if kind == "email" && v != [] && !IsValidEmail(v) then
      assert Fails(required, kind, v, BadEmail);
      Rejected(BadEmail)
    else if kind == "tel" && v != [] && !IsValidPhone(v) then
      assert Fails(required, kind, v, BadPhone);
      Rejected(BadPhone)
    else Accepted
  }

  /** `validateField`: the verdict on the trimmed value; the source's boolean
      result is `Accepted?`. */
  function ValidateField(f: Field): (verdict: Verdict)
    ensures verdict.Accepted? <==> forall rule :: !Fails(f.required, f.kind, Trim(f.value), rule)
    ensures verdict.Rejected? ==>
              && Fails(f.required, f.kind, Trim(f.value), verdict.rule)
              && forall rule :: Rank(rule) < Rank(verdict.rule) ==> !Fails(f.required, f.kind, Trim(f.value), rule)
  {
    FirstFailure(f.required, f.kind, Trim(f.value))
  }

  /** A field that is not required and holds only white space is always accepted. */
  lemma BlankOptionalFieldAccepted(f: Field)
    requires !f.required && Blank(f.value)
    ensures ValidateField(f) == Accepted
  {
    TrimEmptyIffBlank(f.value);
  }

  /** A required field holding only white space is rejected as missing, whatever its type. */
  lemma BlankRequiredFieldRejected(f: Field)
    requires f.required && Blank(f.value)
    ensures ValidateField(f) == Rejected(MissingRequired)
  {
    TrimEmptyIffBlank(f.value);
  }

  /** The verdict depends on the value only through its trimmed form. */
  lemma VerdictIgnoresSurroundingSpace(f: Field)
    ensures ValidateField(f) == ValidateField(Field(f.required, f.kind, Trim(f.value)))
  {
    var v := Trim(f.value);
    TrimIdempotent(f.value);
    assert Trim(v) == v;
  }

  /** A `tel` field is accepted exactly when it is blank and optional, or its
      trimmed value is at least ten digits, spaces, dashes, parentheses or plus signs. */
  lemma TelFieldVerdict(f: Field)
    requires f.kind == "tel"
    ensures ValidateField(f).Accepted? <==>
              if Blank(f.value) then !f.required else IsValidPhone(Trim(f.value))
  {
    TrimEmptyIffBlank(f.value);
  }

  /** An `email` field is accepted exactly when it is blank and optional, or
      its trimmed value has the shape of an address. */
  lemma EmailFieldVerdict(f: Field)
    requires f.kind == "email"
    ensures ValidateField(f).Accepted? <==>
              if Blank(f.value) then !f.required else EmailShape(Trim(f.value))
  {
    TrimEmptyIffBlank(f.value);
    EmailCharacterization(Trim(f.value));
  }
}
