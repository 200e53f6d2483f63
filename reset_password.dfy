/**
 * The password-reset page: the query-string reader `getParameterByName`, the
 * decision taken when the page opens, and the validation chain of the form.
 * `decodeURIComponent` is a parameter `decode` the model knows nothing about.
 */
module ResetPassword {
  import opened Wrappers
  import opened Strings

  // ---------------------------------------------------------------------------
  // getParameterByName
  // ---------------------------------------------------------------------------

  /** `name.replace(/[\[\]]/g, '\\$&')`: a backslash in front of every bracket. */
  function EscapeBrackets(name: string): (r: string)
    ensures |r| >= |name|
  {
    if name == [] then []
    else (if name[0] == '[' || name[0] == ']' then ['\\', name[0]] else [name[0]]) + EscapeBrackets(name[1..])
  }

  /** The text a regular-expression source of plain characters and `\`-escapes matches. */
  function Unescape(pattern: string): string
  {
    if pattern == [] then []
    else if pattern[0] == '\\' && |pattern| >= 2 then [pattern[1]] + Unescape(pattern[2..])
    else [pattern[0]] + Unescape(pattern[1..])
  }

  /** Escaped brackets match themselves: the pattern built for `name` matches `name` literally. */
  lemma {:induction false} EscapedNameIsLiteral(name: string)
    requires '\\' !in name
    ensures Unescape(EscapeBrackets(name)) == name
  {
    if name != [] {
      var head := if name[0] == '[' || name[0] == ']' then ['\\', name[0]] else [name[0]];
      EscapedNameIsLiteral(name[1..]);
      assert EscapeBrackets(name) == head + EscapeBrackets(name[1..]);
      if name[0] == '[' || name[0] == ']' {
        assert (head + EscapeBrackets(name[1..]))[2..] == EscapeBrackets(name[1..]);
      } else {
        assert (head + EscapeBrackets(name[1..]))[1..] == EscapeBrackets(name[1..]);
      }
    }
  }

  /** `[?&]` + name + `(=…|&|#|$)` matches at position `i`. */
  predicate ParamAt(url: string, name: string, i: nat)
  {
    var j := i + 1 + |name|;
    && j <= |url|
    && (url[i] == '?' || url[i] == '&')
    && url[i + 1..j] == name
    && (j == |url| || url[j] == '=' || url[j] == '&' || url[j] == '#')
  }

  /** The leftmost match at or after `from`. */
  function FindParam(url: string, name: string, from: nat): (r: Option<nat>)
    ensures r.Some? ==> from <= r.value && ParamAt(url, name, r.value)
    ensures r.Some? ==> forall k :: from <= k < r.value ==> !ParamAt(url, name, k)
    ensures r.None? ==> forall k :: from <= k ==> !ParamAt(url, name, k)
    decreases |url| - from
  {
    if from + 1 + |name| > |url| then None
    else if ParamAt(url, name, from) then Some(from)
    else FindParam(url, name, from + 1)
  }

  /** The end of the greedy `[^&#]*` run starting at `j`. */
  function ValueEnd(url: string, j: nat): (e: nat)
    requires j <= |url|
    ensures j <= e <= |url|
    ensures forall k :: j <= k < e ==> url[k] != '&' && url[k] != '#'
    ensures e == |url| || url[e] == '&' || url[e] == '#'
    decreases |url| - j
  {
    if j < |url| && url[j] != '&' && url[j] != '#' then ValueEnd(url, j + 1) else j
  }

  /** Group 2 of the match at `i`: the value after `=`, absent when `&`, `#` or the end follows the name. */
  function Group2(url: string, name: string, i: nat): Option<string>
    requires ParamAt(url, name, i)
  {
    var j := i + 1 + |name|;
    if j < |url| && url[j] == '=' then Some(url[j + 1..ValueEnd(url, j + 1)]) else None
  }

  /** `s.replace(/\+/g, ' ')`. */
  function PlusToSpace(s: string): (r: string)
    ensures |r| == |s|
    ensures forall k :: 0 <= k < |s| ==> r[k] == (if s[k] == '+' then ' ' else s[k])
  {
    seq(|s|, k requires 0 <= k < |s| => if s[k] == '+' then ' ' else s[k])
  }

  /** `!results[2] ? '' : decodeURIComponent(results[2].replace(/\+/g, ' '))`. */
  function ReadValue(group: Option<string>, decode: string -> string): Option<string>
  {
    match group
    case None => Some("")
    case Some(v) => if v == "" then Some("") else Some(decode(PlusToSpace(v)))
  }

  /** `getParameterByName(name, url)`. */
  function GetParameterByName(name: string, url: string, decode: string -> string): Option<string>
  {
    match FindParam(url, name, 0)
    case None => None
    case Some(i) => ReadValue(Group2(url, name, i), decode)
  }

  /** The result is absent exactly when no `?` or `&` is followed by the name and then `=`, `&`, `#` or the end. */
  lemma GetParameterAbsent(name: string, url: string, decode: string -> string)
    ensures GetParameterByName(name, url, decode).None? <==> forall k: nat :: !ParamAt(url, name, k)
  {
  }

  /**
   * At the first occurrence `i` (the leftmost match, by `FindParam`'s
   * contract and `FindFirst`), when the name is not followed by `=` or the
   * value is empty, the result is empty.
   */
  lemma GetParameterEmpty(name: string, url: string, decode: string -> string, i: nat)
    requires FindParam(url, name, 0) == Some(i)
    requires var j := i + 1 + |name|;
      j == |url| || url[j] != '=' || ValueEnd(url, j + 1) == j + 1
    ensures GetParameterByName(name, url, decode) == Some("")
  {
    assert GetParameterByName(name, url, decode) == ReadValue(Group2(url, name, i), decode);
  }

  /**
   * At the first occurrence `i`, a non-empty value is decoded up to the
   * next `&` or `#`, with `+` read as a space.
   */
  lemma GetParameterValue(name: string, url: string, decode: string -> string, i: nat)
    requires FindParam(url, name, 0) == Some(i)
    requires var j := i + 1 + |name|;
      j < |url| && url[j] == '=' && ValueEnd(url, j + 1) > j + 1
    ensures var j := i + 1 + |name|;
      GetParameterByName(name, url, decode) == Some(decode(PlusToSpace(url[j + 1..ValueEnd(url, j + 1)])))
  {
    var j := i + 1 + |name|;
    var e := ValueEnd(url, j + 1);
    var v := url[j + 1..e];
    assert Group2(url, name, i) == Some(v);
    assert v != "" by {
      assert |v| == e - j - 1;
    }
    assert ReadValue(Some(v), decode) == Some(decode(PlusToSpace(v)));
    assert GetParameterByName(name, url, decode) == ReadValue(Group2(url, name, i), decode);
  }

  lemma FindFirst(url: string, name: string, i: nat)
    requires ParamAt(url, name, i)
    requires forall k: nat :: k < i ==> !ParamAt(url, name, k)
    ensures FindParam(url, name, 0) == Some(i)
  {
    var r := FindParam(url, name, 0);
    assert r.Some?;
    assert !(r.value < i) && !(i < r.value);
  }

  /**
   * Written and read back: after a prefix holding neither `?` nor `&`, the
   * parameter `?name=v` with a non-empty value free of `&` and `#` reads as
   * the decoded value.
   */
  lemma ParameterRoundTrip(base: string, name: string, v: string, rest: string, decode: string -> string)
    requires '?' !in base && '&' !in base
    requires v != "" && '&' !in v && '#' !in v
    requires rest == "" || rest[0] == '&' || rest[0] == '#'
    ensures GetParameterByName(name, base + "?" + name + "=" + v + rest, decode) ==
      Some(decode(PlusToSpace(v)))
  {
    var url := base + "?" + name + "=" + v + rest;
    var i := |base|;
    var j := i + 1 + |name|;
    assert url[i] == '?' && url[i + 1..j] == name && url[j] == '=';
    assert ParamAt(url, name, i);
    forall k: nat | k < i ensures !ParamAt(url, name, k) {
      assert url[k] == base[k];
    }
    assert url[j + 1..j + 1 + |v|] == v;
    assert forall k :: j + 1 <= k < j + 1 + |v| ==> url[k] == v[k - j - 1];
    assert j + 1 + |v| == |url| || url[j + 1 + |v|] == rest[0];
    ValueEndIs(url, j + 1, j + 1 + |v|);
    FindFirst(url, name, i);
    GetParameterValue(name, url, decode, i);
  }

  lemma {:induction false} ValueEndIs(url: string, j: nat, e: nat)
    requires j <= e <= |url|
    requires forall k :: j <= k < e ==> url[k] != '&' && url[k] != '#'
    requires e == |url| || url[e] == '&' || url[e] == '#'
    ensures ValueEnd(url, j) == e
    decreases e - j
  {
    if j < e {
      ValueEndIs(url, j + 1, e);
    }
  }

  /** Example (the general fact is `FindParam`'s leftmost match): `?mode=a&mode=b` reads `a`. */
  lemma FirstOccurrenceWins(decode: string -> string)
    ensures GetParameterByName("mode", "?mode=a&mode=b", decode) == Some(decode("a"))
  {
    ParameterRoundTrip("", "mode", "a", "&mode=b", decode);
    assert "" + "?" + "mode" + "=" + "a" + "&mode=b" == "?mode=a&mode=b";
    assert PlusToSpace("a") == "a";
  }

  // ---------------------------------------------------------------------------
  // What the page does when it opens
  // ---------------------------------------------------------------------------

  datatype Opening =
    | Redirect(target: string)
    | ShowSuccess
    | ShowError(message: string)
    | VerifyCode(code: string, lang: string)

  const InvalidParameters := "Paramètres de requête invalides ou manquants."

  /** String concatenation of a possibly-null value, as `+` does it. */
  function Str(x: Option<string>): string
  {
    match x
    case None => "null"
    case Some(s) => s
  }

  /** Absent and empty values are both false in a test. */
  predicate Truthy(x: Option<string>)
  {
    x.Some? && x.value != ""
  }

  /** `continueUrl` with the action parameters appended, each as `+` writes it. */
  function WithActionParams(continueUrl: string, mode: string, code: string, apiKey: string, lang: string): string
  {
    continueUrl + "?mode=" + mode + "&oobCode=" + code + "&apiKey=" + apiKey + "&lang=" + lang
  }

  /** Where a link carrying `continueUrl` is sent. */
  function ContinueTarget(url: string, decode: string -> string): string
  {
    WithActionParams(Str(GetParameterByName("continueUrl", url, decode)),
                     Str(GetParameterByName("mode", url, decode)),
                     Str(GetParameterByName("oobCode", url, decode)),
                     Str(GetParameterByName("apiKey", url, decode)),
                     Str(GetParameterByName("lang", url, decode)))
  }

  /** The effect of opening the page at `url`. */
  function Open(url: string, decode: string -> string): Opening
  {
    var mode := GetParameterByName("mode", url, decode);
    var code := GetParameterByName("oobCode", url, decode);
    var lang := GetParameterByName("lang", url, decode);
    if Contains(url, "continueUrl") then Redirect(ContinueTarget(url, decode))
    else if !Truthy(mode) && !Truthy(code) && Contains(url, "reset-password") then ShowSuccess
    else if mode != Some("resetPassword") || !Truthy(code) then ShowError(InvalidParameters)
    else VerifyCode(code.value, if Truthy(lang) then lang.value else "fr")
  }

  /**
   * Without `continueUrl`: no mode and no code on the reset page means the
   * reset already succeeded; otherwise a mode other than `resetPassword` or a
   * missing code is an error; only a `resetPassword` mode with a code goes on
   * to verify that code.
   */
  lemma OpenDecision(url: string, decode: string -> string)
    requires !Contains(url, "continueUrl")
    ensures var mode := GetParameterByName("mode", url, decode);
      var code := GetParameterByName("oobCode", url, decode);
      && (!Truthy(mode) && !Truthy(code) && Contains(url, "reset-password") ==> Open(url, decode) == ShowSuccess)
      && (!(!Truthy(mode) && !Truthy(code) && Contains(url, "reset-password")) ==>
            ((mode != Some("resetPassword") || !Truthy(code)) <==> Open(url, decode) == ShowError(InvalidParameters)))
      && (Open(url, decode).VerifyCode? <==> mode == Some("resetPassword") && Truthy(code))
      && (Open(url, decode).VerifyCode? ==> Open(url, decode).code == code.value)
  {
  }

  /**
   * A URL carrying `continueUrl` is always sent on, whatever else it holds:
   * to the value of `continueUrl` followed by the page's own mode.
   */
  lemma ContinueUrlRedirects(url: string, decode: string -> string)
    requires Contains(url, "continueUrl")
    ensures Open(url, decode).Redirect?
    ensures var lead := Str(GetParameterByName("continueUrl", url, decode));
      var t := Open(url, decode).target;
      && |lead| + 6 <= |t|
      && t[..|lead|] == lead
      && t[|lead|..|lead| + 6] == "?mode="
  {
    assert Open(url, decode) == Redirect(ContinueTarget(url, decode));
    TargetShape(url, decode);
  }

  lemma TargetShape(url: string, decode: string -> string)
    ensures var lead := Str(GetParameterByName("continueUrl", url, decode));
      var t := ContinueTarget(url, decode);
      && |lead| + 6 <= |t|
      && t[..|lead|] == lead
      && t[|lead|..|lead| + 6] == "?mode="
  {
    WithActionParamsShape(Str(GetParameterByName("continueUrl", url, decode)),
                          Str(GetParameterByName("mode", url, decode)),
                          Str(GetParameterByName("oobCode", url, decode)),
                          Str(GetParameterByName("apiKey", url, decode)),
                          Str(GetParameterByName("lang", url, decode)));
  }

  lemma WithActionParamsShape(continueUrl: string, mode: string, code: string, apiKey: string, lang: string)
    ensures var t := WithActionParams(continueUrl, mode, code, apiKey, lang);
      && |continueUrl| + 6 <= |t|
      && t[..|continueUrl|] == continueUrl
      && t[|continueUrl|..|continueUrl| + 6] == "?mode="
  {
    var rest := mode + "&oobCode=" + code + "&apiKey=" + apiKey + "&lang=" + lang;
    var m := "?mode=" + rest;
    assert WithActionParams(continueUrl, mode, code, apiKey, lang) == continueUrl + m;
    assert m[..6] == "?mode=";
  }

  /** What the page shows once an asynchronous Firebase call has settled. */
  datatype Shown = Form(email: string) | Done | Failed(message: string)

  const LinkExpired := "Ce lien est invalide ou a expiré. Veuillez demander un nouveau lien de réinitialisation."
  const ResetFailed := "Une erreur est survenue lors de la réinitialisation du mot de passe."

  /** The code check: `Some(email)` when Firebase accepts the code, `None` when it rejects it. */
  function AfterVerify(verified: Option<string>): (r: Shown)
    ensures verified.Some? ==> r == Form(verified.value)
    ensures r.Form? ==> verified == Some(r.email)
    ensures verified.None? <==> r == Failed(LinkExpired)
  {
    match verified
    case Some(email) => Form(email)
    case None => Failed(LinkExpired)
  }

  /**
   * The reset itself: `None` when Firebase confirms it, `Some(message)` with
   * the error's message when it throws; an empty message is replaced.
   */
  function AfterConfirm(failure: Option<string>): (r: Shown)
    ensures failure.None? <==> r == Done
    ensures r.Failed? ==> r.message != ""
    ensures failure.Some? && failure.value != "" ==> r == Failed(failure.value)
  {
    match failure
    case None => Done
    case Some(m) => Failed(if m != "" then m else ResetFailed)
  }

  // ---------------------------------------------------------------------------
  // handlePasswordReset
  // ---------------------------------------------------------------------------

  datatype ResetStep =
    | PasswordError(message: string)
    | StatusError(message: string)
    | Attempt(code: string, password: string)

  const Mismatch := "Les mots de passe ne correspondent pas."
  const TooShort := "Le mot de passe doit contenir au moins 8 caractères."
  const MissingCode := "Code d'action manquant."

  /** The checks of the form, in their order; `code` is the `oobCode` read again from the URL. */
  function PasswordReset(newPassword: string, confirm: string, code: Option<string>): ResetStep
  {
    if newPassword != confirm then PasswordError(Mismatch)
    else if |newPassword| < 8 then PasswordError(TooShort)
    else if !Truthy(code) then StatusError(MissingCode)
    else Attempt(code.value, newPassword)
  }

  /**
   * A mismatch is reported before the length, a short password before the
   * missing code, and the reset is attempted exactly when both passwords
   * agree, have at least 8 characters and a code is present.
   */
  lemma PasswordResetOrder(newPassword: string, confirm: string, code: Option<string>)
    ensures newPassword != confirm ==> PasswordReset(newPassword, confirm, code) == PasswordError(Mismatch)
    ensures newPassword == confirm && |newPassword| < 8 ==>
      PasswordReset(newPassword, confirm, code) == PasswordError(TooShort)
    ensures PasswordReset(newPassword, confirm, code).Attempt? <==>
      newPassword == confirm && |newPassword| >= 8 && Truthy(code)
    ensures PasswordReset(newPassword, confirm, code).Attempt? ==>
      PasswordReset(newPassword, confirm, code) == Attempt(code.value, newPassword)
  {
  }
}
