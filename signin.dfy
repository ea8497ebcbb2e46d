/**
 * The account-creation form's rules: the full-name test, the email
 * pattern, the password confirmation and the message shown for a failed
 * sign-up.
 */
module Signin {
  import opened Wrappers

  /**
   * The characters JavaScript's `trim` removes and its regular-expression
   * class `\s` matches: WhiteSpace and LineTerminator.
   */
  predicate IsJsSpace(c: char) {
    || c == '\t' || c == '\n' || c == '\U{000B}' || c == '\U{000C}' || c == '\r' || c == ' '
    || c == '\U{00A0}' || c == '\U{1680}' || ('\U{2000}' <= c <= '\U{200A}')
    || c == '\U{2028}' || c == '\U{2029}' || c == '\U{202F}' || c == '\U{205F}'
    || c == '\U{3000}' || c == '\U{FEFF}'
  }

  function TrimStart(s: string): (r: string)
    ensures |r| <= |s| && r == s[|s| - |r|..]
    ensures r != [] ==> !IsJsSpace(r[0])
    ensures forall k :: 0 <= k < |s| - |r| ==> IsJsSpace(s[k])
  {
    if s != [] && IsJsSpace(s[0]) then TrimStart(s[1..]) else s
  }

  function TrimEnd(s: string): (r: string)
    ensures |r| <= |s| && r == s[..|r|]
    ensures r != [] ==> !IsJsSpace(r[|r| - 1])
    ensures forall k :: |r| <= k < |s| ==> IsJsSpace(s[k])
  {
    if s != [] && IsJsSpace(s[|s| - 1]) then TrimEnd(s[..|s| - 1]) else s
  }

  /** `String.prototype.trim` */
  function Trim(s: string): (r: string)
    ensures r == [] || (!IsJsSpace(r[0]) && !IsJsSpace(r[|r| - 1]))
  {
    TrimEnd(TrimStart(s))
  }

  /** The number of occurrences of `c` in `s`. */
  function Count(s: string, c: char): (n: nat)
    ensures n == 0 <==> c !in s
    ensures n <= |s|
  {
    if s == [] then 0 else (if s[0] == c then 1 else 0) + Count(s[1..], c)
  }

  lemma {:induction false} CountConcat(a: string, b: string, c: char)
    ensures Count(a + b, c) == Count(a, c) + Count(b, c)
  {
    if a != [] {
      assert (a + b)[1..] == a[1..] + b;
      CountConcat(a[1..], b, c);
    } else {
      assert a + b == b;
    }
  }

  /** `split(" ")`: the pieces between the spaces, empty pieces included. */
  function SplitSpaces(s: string): (pieces: seq<string>)
    ensures pieces != []
  {
    if s == [] then [""]
    else
      var rest := SplitSpaces(s[1..]);
      if s[0] == ' ' then [""] + rest else [[s[0]] + rest[0]] + rest[1..]
  }

  /** There is one piece more than there are spaces. */
  lemma {:induction false} SplitSpacesCount(s: string)
    ensures |SplitSpaces(s)| == Count(s, ' ') + 1
  {
    if s != [] {
      SplitSpacesCount(s[1..]);
    }
  }

  /** No piece holds a space. */
  lemma {:induction false} SplitSpacesHaveNoSpace(s: string)
    ensures forall i :: 0 <= i < |SplitSpaces(s)| ==> ' ' !in SplitSpaces(s)[i]
  {
    if s != [] {
      SplitSpacesHaveNoSpace(s[1..]);
      var rest := SplitSpaces(s[1..]);
      if s[0] != ' ' {
        var pieces := [[s[0]] + rest[0]] + rest[1..];
        assert SplitSpaces(s) == pieces;
        forall i | 0 <= i < |pieces| ensures ' ' !in pieces[i] {
          if i > 0 {
            assert pieces[i] == rest[i];
          }
        }
      } else {
        assert SplitSpaces(s) == [""] + rest;
      }
    }
  }

  /** `pieces.join(" ")` */
  function JoinSpaces(pieces: seq<string>): (s: string)
    requires pieces != []
  {
    if |pieces| == 1 then pieces[0] else pieces[0] + " " + JoinSpaces(pieces[1..])
  }

  /** Splitting at the spaces and joining with spaces gives the string back. */
  lemma {:induction false} JoinSplitSpaces(s: string)
    ensures JoinSpaces(SplitSpaces(s)) == s
  {
    if s != [] {
      JoinSplitSpaces(s[1..]);
      var rest := SplitSpaces(s[1..]);
      if s[0] == ' ' {
        assert JoinSpaces([""] + rest) == "" + " " + JoinSpaces(rest);
        assert s == [' '] + s[1..];
      } else {
        var pieces := [[s[0]] + rest[0]] + rest[1..];
        if |rest| == 1 {
          assert s == [s[0]] + s[1..];
        } else {
          assert pieces[1..] == rest[1..];
          assert JoinSpaces(rest) == rest[0] + " " + JoinSpaces(rest[1..]);
          assert s == [s[0]] + s[1..];
        }
      }
    }
  }

  const NameRequiredMessage := "Nome é obrigatório."
  const FullNameMessage := "Por favor, insira seu nome completo."

  /** The name input's validate rule: `value.trim().split(" ").length > 1`. */
  function FullNameRule(value: string): (error: Option<string>)
    ensures error.None? <==> ' ' in Trim(value)
    ensures error.Some? ==> error.value == FullNameMessage
  {
    SplitSpacesCount(Trim(value));
    if |SplitSpaces(Trim(value))| > 1 then None else Some(FullNameMessage)
  }

  predicate AllSpace(s: string) {
    forall k :: 0 <= k < |s| ==> IsJsSpace(s[k])
  }

  lemma {:induction false} TrimStartPadding(pad: string, rest: string)
    requires AllSpace(pad) && (rest == [] || !IsJsSpace(rest[0]))
    ensures TrimStart(pad + rest) == rest
  {
    if pad != [] {
      assert (pad + rest)[0] == pad[0];
      assert (pad + rest)[1..] == pad[1..] + rest;
      TrimStartPadding(pad[1..], rest);
    }
  }

  lemma {:induction false} TrimEndPadding(rest: string, pad: string)
    requires AllSpace(pad) && (rest == [] || !IsJsSpace(rest[|rest| - 1]))
    ensures TrimEnd(rest + pad) == rest
  {
    if pad != [] {
      var init := pad[..|pad| - 1];
      assert (rest + pad)[..|rest + pad| - 1] == rest + init;
      TrimEndPadding(rest, init);
    } else {
      assert rest + pad == rest;
    }
  }

  /**
   * Trimming strips exactly the padding around a word; so a single word,
   * with or without padding, and padding alone are refused.
   */
  lemma SingleWordRefused(before: string, word: string, after: string)
    requires AllSpace(before) && NoSpace(word) && AllSpace(after)
    ensures Trim(before + word + after) == word
    ensures FullNameRule(before + word + after).Some?
  {
    if word == [] {
      assert before + word + after == before + after;
      TrimStartPadding(before + after, []);
      assert before + after + [] == before + after;
    } else {
      assert before + word + after == before + (word + after);
      TrimStartPadding(before, word + after);
      TrimEndPadding(word, after);
    }
    assert ' ' !in word by {
      forall k | 0 <= k < |word| ensures word[k] != ' ' {
        assert !IsJsSpace(word[k]);
      }
    }
  }

  /** The name field: required, then the full-name rule. */
  function NameError(value: string): (error: Option<string>)
    ensures value == "" ==> error == Some(NameRequiredMessage)
    ensures value != "" ==> error == FullNameRule(value)
  {
    if value == "" then Some(NameRequiredMessage) else FullNameRule(value)
  }

  /** A run of characters `[^\s@]+`. */
  predicate Plain(s: string) {
    s != [] && forall k :: 0 <= k < |s| ==> !IsJsSpace(s[k]) && s[k] != '@'
  }

  /** The pattern `^[^\s@]+@[^\s@]+\.[^\s@]+$`, read as a split of the string. */
  ghost predicate MatchesEmailPattern(s: string) {
    exists i, j :: 0 < i < j < |s| && s[i] == '@' && s[j] == '.'
      && Plain(s[..i]) && Plain(s[i + 1..j]) && Plain(s[j + 1..])
  }

  predicate NoSpace(s: string) {
    forall k :: 0 <= k < |s| ==> !IsJsSpace(s[k])
  }

  /** The domain has a '.' with text on both sides. */
  predicate HasInnerDot(d: string) {
    exists k :: 0 < k < |d| - 1 && d[k] == '.'
  }

  function IndexOf(s: string, c: char): (i: nat)
    requires c in s
    ensures i < |s| && s[i] == c && c !in s[..i]
  {
    if s[0] == c then 0
    else
      assert c in s[1..];
      var i := IndexOf(s[1..], c) + 1;
      assert s[..i] == [s[0]] + s[1..][..i - 1];
      i
  }

  /**
   * The email test as the pattern means it: one '@', no whitespace, a
   * non-empty local part, and a '.' inside the domain.
   */
  predicate IsValidEmail(s: string) {
    && Count(s, '@') == 1
    && NoSpace(s)
    && var at := IndexOf(s, '@');
       at > 0 && HasInnerDot(s[at + 1..])
  }

  lemma AtSplit(s: string, i: nat)
    requires i < |s| && s[i] == '@'
    ensures Count(s, '@') == Count(s[..i], '@') + 1 + Count(s[i + 1..], '@')
  {
    assert s == s[..i] + [s[i]] + s[i + 1..];
    CountConcat(s[..i] + [s[i]], s[i + 1..], '@');
    CountConcat(s[..i], [s[i]], '@');
  }

  /** The first occurrence of `c` is the one with no `c` before it. */
  lemma IndexOfUnique(s: string, c: char, i: nat)
    requires i < |s| && s[i] == c && c !in s[..i]
    ensures IndexOf(s, c) == i
  {
  }

  /** A string split as the pattern demands passes the hand-written test. */
  lemma PatternGivesValidEmail(s: string, i: nat, j: nat)
    requires 0 < i < j < |s| && s[i] == '@' && s[j] == '.'
    requires Plain(s[..i]) && Plain(s[i + 1..j]) && Plain(s[j + 1..])
    ensures IsValidEmail(s)
  {
    var local, d1, d2, domain := s[..i], s[i + 1..j], s[j + 1..], s[i + 1..];
    assert '@' !in local by {
      forall k | 0 <= k < |local| ensures local[k] != '@' {
        assert local[k] == s[..i][k];
      }
    }
    assert '@' !in domain by {
      forall k | 0 <= k < |domain| ensures domain[k] != '@' {
        if k < |d1| {
          assert domain[k] == d1[k];
        } else if k > |d1| {
          assert domain[k] == d2[k - |d1| - 1];
        } else {
          assert domain[k] == s[j];
        }
      }
    }
    AtSplit(s, i);
    assert NoSpace(s) by {
      forall k | 0 <= k < |s| ensures !IsJsSpace(s[k]) {
        if k < i {
          assert s[k] == local[k];
        } else if i < k < j {
          assert s[k] == d1[k - i - 1];
        } else if k > j {
          assert s[k] == d2[k - j - 1];
        }
      }
    }
    IndexOfUnique(s, '@', i);
    assert domain[j - i - 1] == '.';
    assert HasInnerDot(domain);
  }

  /** A string that passes the hand-written test splits as the pattern demands. */
  lemma ValidEmailMatchesPattern(s: string)
    requires IsValidEmail(s)
    ensures MatchesEmailPattern(s)
  {
    var i := IndexOf(s, '@');
    var domain := s[i + 1..];
    var k :| 0 < k < |domain| - 1 && domain[k] == '.';
    var j := i + 1 + k;
    AtSplit(s, i);
    assert s[j] == '.';
    assert Plain(s[..i]) by {
      forall m | 0 <= m < i ensures !IsJsSpace(s[..i][m]) && s[..i][m] != '@' {
        assert s[..i][m] == s[m];
      }
    }
    var d1, d2 := s[i + 1..j], s[j + 1..];
    assert Plain(d1) by {
      forall m | 0 <= m < |d1| ensures !IsJsSpace(d1[m]) && d1[m] != '@' {
        assert d1[m] == s[i + 1 + m] == domain[m];
      }
    }
    assert Plain(d2) by {
      forall m | 0 <= m < |d2| ensures !IsJsSpace(d2[m]) && d2[m] != '@' {
        assert d2[m] == s[j + 1 + m] == domain[k + 1 + m];
      }
    }
  }

  /** The hand-written test accepts exactly the strings the pattern matches. */
  lemma EmailPatternIsValidEmail(s: string)
    ensures MatchesEmailPattern(s) <==> IsValidEmail(s)
  {
    if MatchesEmailPattern(s) {
      var i, j :| 0 < i < j < |s| && s[i] == '@' && s[j] == '.'
        && Plain(s[..i]) && Plain(s[i + 1..j]) && Plain(s[j + 1..]);
      PatternGivesValidEmail(s, i, j);
    }
    if IsValidEmail(s) {
      ValidEmailMatchesPattern(s);
    }
  }

  const EmailRequiredMessage := "Email é obrigatório."
  const InvalidEmailMessage := "Email inválido."

  /** The email field: required, then the pattern. */
  function EmailError(value: string): (error: Option<string>)
    ensures value == "" ==> error == Some(EmailRequiredMessage)
    ensures value != "" ==> (error.None? <==> IsValidEmail(value))
    ensures value != "" && error.Some? ==> error.value == InvalidEmailMessage
  {
    if value == "" then Some(EmailRequiredMessage)
    else if IsValidEmail(value) then None
    else Some(InvalidEmailMessage)
  }

  const PasswordsDifferMessage := "As senhas não coincidem."

  /** validatePasswordsMatch: the message when the confirmation differs from the password. */
  function PasswordsMatch(confirmation: string, password: string): (error: Option<string>)
    ensures error.Some? <==> confirmation != password
    ensures error.Some? ==> error.value == PasswordsDifferMessage
  {
    if confirmation != password then Some(PasswordsDifferMessage) else None
  }

  const PasswordRequiredMessage := "Senha é obrigatória."
  const ConfirmationRequiredMessage := "Confirmação de senha é obrigatória."

  /** The password field: only required. */
  function PasswordError(value: string): (error: Option<string>)
    ensures error.Some? <==> value == ""
    ensures error.Some? ==> error.value == PasswordRequiredMessage
  {
    if value == "" then Some(PasswordRequiredMessage) else None
  }

  /** The confirmation field: required, then validatePasswordsMatch. */
  function ConfirmationError(confirmation: string, password: string): (error: Option<string>)
    ensures confirmation == "" ==> error == Some(ConfirmationRequiredMessage)
    ensures confirmation != "" ==> error == PasswordsMatch(confirmation, password)
  {
    if confirmation == "" then Some(ConfirmationRequiredMessage) else PasswordsMatch(confirmation, password)
  }

  /** Both password fields pass exactly when the password is set and the confirmation repeats it. */
  lemma PasswordFieldsPass(password: string, confirmation: string)
    ensures PasswordError(password).None? && ConfirmationError(confirmation, password).None?
            <==> password != "" && confirmation == password
  {
  }

  const EmailInUseCode := "auth/email-already-in-use"
  const EmailInUseMessage := "Este email já está em uso. Por favor, use outro email."
  const SignupFailedMessage := "Falha ao fazer o cadastro. Verifique suas credenciais."

  /** The message onSubmit shows for a failed sign-up. */
  function SignupErrorMessage(code: string): (message: string)
    ensures message == EmailInUseMessage <==> code == EmailInUseCode
    ensures message == SignupFailedMessage <==> code != EmailInUseCode
  {
    if code == EmailInUseCode then EmailInUseMessage else SignupFailedMessage
  }
}
