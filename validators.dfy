/** Input validation utilities: e-mail, password strength, file names,
    S3 object keys and UUIDs (apps/api/src/utils/validators.py).

    Every validator there is a chain of regular-expression tests. Each is
    modelled by an executable function together with a declarative
    description of the language its pattern accepts, and a lemma proves the
    two agree. Python's `re.match(r'^...$', s)` without MULTILINE also
    accepts `s` when the pattern matches `s` minus one final "\n"; the model
    keeps that. */
module Validators {

  import opened Wrappers
  import opened Strings

  // ---------------------------------------------------------------------
  // Character classes
  // ---------------------------------------------------------------------

  predicate IsAsciiUpper(c: char) { 'A' <= c <= 'Z' }
  predicate IsAsciiLower(c: char) { 'a' <= c <= 'z' }
  predicate IsAsciiLetter(c: char) { IsAsciiUpper(c) || IsAsciiLower(c) }
  predicate IsAsciiDigit(c: char) { '0' <= c <= '9' }

  /** `[A-Za-z0-9._%+-]`, the local part of an address. */
  predicate IsLocalChar(c: char) {
    IsAsciiLetter(c) || IsAsciiDigit(c) || c == '.' || c == '_' || c == '%' || c == '+' || c == '-'
  }

  /** `[A-Za-z0-9.-]`, the domain part of an address. */
  predicate IsDomainChar(c: char) {
    IsAsciiLetter(c) || IsAsciiDigit(c) || c == '.' || c == '-'
  }

  /** `[a-f0-9]` under IGNORECASE. */
  predicate IsHexDigit(c: char) {
    IsAsciiDigit(c) || ('a' <= c <= 'f') || ('A' <= c <= 'F')
  }

  /** Strips the one trailing "\n" that `$` tolerates, if there is one. */
  predicate EndsWithNewline(s: string) { |s| > 0 && s[|s| - 1] == '\n' }

  // ---------------------------------------------------------------------
  // validate_email: ^[A-Za-z0-9._%+-]+@[A-Za-z0-9.-]+\.[A-Za-z]{2,}$
  // ---------------------------------------------------------------------

  /** `s` is `local @ domain . tld` with `at` the position of the `@` and
      `dot` the position of the `.` before the top-level label. */
  predicate EmailSplitAt(s: string, at: int, dot: int) {
    && 0 < at && at + 1 < dot && dot + 2 < |s|
    && s[at] == '@' && s[dot] == '.'
    && (forall k :: 0 <= k < at ==> IsLocalChar(s[k]))
    && (forall k :: at < k < dot ==> IsDomainChar(s[k]))
    && (forall k :: dot < k < |s| ==> IsAsciiLetter(s[k]))
  }

  /** The language of the pattern without its anchors: some split of `s`
      into a non-empty local part, `@`, a non-empty domain, `.` and a label of
      at least two ASCII letters. */
  ghost predicate EmailPattern(s: string) {
    exists at: int, dot: int :: EmailSplitAt(s, at, dot)
  }

  /** What `re.match` with a final `$` accepts. */
  ghost predicate EmailRegexAccepts(s: string) {
    EmailPattern(s) || (EndsWithNewline(s) && EmailPattern(s[..|s| - 1]))
  }

  /** Checks the pattern by locating the first `@` and the last `.`. */
  function MatchesEmail(s: string): bool {
    EmailSplitAt(s, IndexOf(s, '@'), LastIndexOf(s, '.'))
  }

  /** `validate_email`: true exactly when the string, or the string minus
      one final newline, is in the pattern's language. */
  function ValidateEmail(email: string): (ok: bool)
    ensures ok <==> EmailRegexAccepts(email)
  {
    MatchesEmailIff(email);
    if EndsWithNewline(email) then
      MatchesEmailIff(email[..|email| - 1]);
      MatchesEmail(email) || MatchesEmail(email[..|email| - 1])
    else MatchesEmail(email)
  }

  /** The first `@` and the last `.` are the only split that can work: the
      local part holds no `@` and the top-level label holds no `.`. */
  lemma MatchesEmailIff(s: string)
    ensures MatchesEmail(s) <==> EmailPattern(s)
  {
    if EmailPattern(s) {
      var at, dot :| EmailSplitAt(s, at, dot);
      var i, j := IndexOf(s, '@'), LastIndexOf(s, '.');
      assert i == at && j == dot;
    }
  }

  /** The top-level label ends the address, so no address ends in "\n". */
  lemma NewlineEndNotEmail(s: string)
    requires EndsWithNewline(s)
    ensures !EmailPattern(s)
  {
    forall at: int, dot: int
      ensures !EmailSplitAt(s, at, dot)
    {
      if 0 < at && at + 1 < dot && dot + 2 < |s| {
        assert !IsAsciiLetter(s[|s| - 1]);
      }
    }
  }

  /** One trailing newline is tolerated, two are not. */
  lemma EmailTrailingNewline(email: string)
    requires EmailPattern(email)
    ensures ValidateEmail(email + "\n")
    ensures !ValidateEmail(email + "\n\n")
  {
    var s := email + "\n";
    assert s[..|s| - 1] == email;
    var t := email + "\n\n";
    assert t[..|t| - 1] == s;
    NewlineEndNotEmail(s);
    NewlineEndNotEmail(t);
  }

  // ---------------------------------------------------------------------
  // validate_password_strength
  // ---------------------------------------------------------------------

  const TooShortMessage: string := "Password must be at least 8 characters long"
  const NoUpperMessage: string := "Password must contain at least one uppercase letter"
  const NoLowerMessage: string := "Password must contain at least one lowercase letter"
  const NoDigitMessage: string := "Password must contain at least one digit"
  const NoSpecialMessage: string := "Password must contain at least one special character"

  /** The class `[!@#$%^&*(),.?":{}|<>]`. */
  const SpecialChars: string := "!@#$%^&*(),.?\":{}|<>"

  predicate HasUpper(p: string) { exists i :: 0 <= i < |p| && IsAsciiUpper(p[i]) }
  predicate HasLower(p: string) { exists i :: 0 <= i < |p| && IsAsciiLower(p[i]) }
  predicate HasDigit(p: string) { exists i :: 0 <= i < |p| && IsAsciiDigit(p[i]) }
  predicate HasSpecial(p: string) { exists i :: 0 <= i < |p| && p[i] in SpecialChars }

  /** The five requirements, in the order they are checked. */
  predicate Requirement(i: nat, p: string)
    requires i < 5
  {
    match i
    case 0 => |p| >= 8
    case 1 => HasUpper(p)
    case 2 => HasLower(p)
    case 3 => HasDigit(p)
    case _ => HasSpecial(p)
  }

  function RequirementMessage(i: nat): string
    requires i < 5
  {
    [TooShortMessage, NoUpperMessage, NoLowerMessage, NoDigitMessage, NoSpecialMessage][i]
  }

  /** `(is_valid, error_message)`: the message of the first requirement that
      fails, or `(True, None)` when all five hold. */
  function ValidatePasswordStrength(password: string): (r: (bool, Option<string>))
    ensures r.0 <==> r.1 == None
    ensures r.0 <==> forall i :: 0 <= i < 5 ==> Requirement(i, password)
    ensures !r.0 ==> exists i ::
      && 0 <= i < 5 && !Requirement(i, password)
      && (forall j :: 0 <= j < i ==> Requirement(j, password))
      && r.1 == Some(RequirementMessage(i))
  {
    if |password| < 8 then
      assert !Requirement(0, password) && RequirementMessage(0) == TooShortMessage;
      (false, Some(TooShortMessage))
    else if !HasUpper(password) then
      assert Requirement(0, password) && !Requirement(1, password);
      assert RequirementMessage(1) == NoUpperMessage;
      (false, Some(NoUpperMessage))
    else if !HasLower(password) then
      assert Requirement(0, password) && Requirement(1, password) && !Requirement(2, password);
      assert RequirementMessage(2) == NoLowerMessage;
      (false, Some(NoLowerMessage))
    else if !HasDigit(password) then
      assert Requirement(0, password) && Requirement(1, password) && Requirement(2, password);
      assert !Requirement(3, password) && RequirementMessage(3) == NoDigitMessage;
      (false, Some(NoDigitMessage))
    else if !HasSpecial(password) then
      assert Requirement(0, password) && Requirement(1, password) && Requirement(2, password);
      assert Requirement(3, password) && !Requirement(4, password);
      assert RequirementMessage(4) == NoSpecialMessage;
      (false, Some(NoSpecialMessage))
    else
      assert Requirement(0, password) && Requirement(1, password) && Requirement(2, password);
      assert Requirement(3, password) && Requirement(4, password);
      (true, None)
  }

  /** A short password gets the length message whatever else is wrong. */
  lemma ShortPasswordMessage(password: string)
    requires |password| < 8
    ensures ValidatePasswordStrength(password) == (false, Some(TooShortMessage))
  {
    var r := ValidatePasswordStrength(password);
    assert !Requirement(0, password);
    var i :| 0 <= i < 5 && !Requirement(i, password)
      && (forall j :: 0 <= j < i ==> Requirement(j, password))
      && r.1 == Some(RequirementMessage(i));
    assert i == 0;
  }

  // ---------------------------------------------------------------------
  // sanitize_filename
  // ---------------------------------------------------------------------

  /** Index just past the last `c` in `s`, or 0 when `s` holds none. */
  function CutIndex(s: string, c: char): (k: nat)
    ensures k <= |s|
    ensures forall i :: k <= i < |s| ==> s[i] != c
    ensures k == 0 || s[k - 1] == c
  {
    if |s| == 0 then 0
    else if s[|s| - 1] == c then |s|
    else CutIndex(s[..|s| - 1], c)
  }

  /** `s.split(c)[-1]`: the text after the last `c`, or all of `s`. */
  function AfterLast(s: string, c: char): (r: string)
    ensures |r| <= |s| && r == s[|s| - |r|..]
    ensures c !in r
    ensures r == s || s[|s| - |r| - 1] == c
  {
    s[CutIndex(s, c)..]
  }

  /** The three facts about `CutIndex` determine it. */
  lemma CutIndexUnique(s: string, c: char, k: nat)
    requires k <= |s|
    requires forall i :: k <= i < |s| ==> s[i] != c
    requires k == 0 || s[k - 1] == c
    ensures CutIndex(s, c) == k
  {
    var j := CutIndex(s, c);
    assert k > 0 ==> s[k - 1] == c;
    assert j > 0 ==> s[j - 1] == c;
  }

  /** `s.replace(' ', '_')`: no space is left, and the only characters that
      change are spaces, each into `_`. */
  function ReplaceSpaces(s: string): (r: string)
    ensures |r| == |s|
    ensures ' ' !in r
    ensures forall i :: 0 <= i < |s| && r[i] != s[i] ==> s[i] == ' ' && r[i] == '_'
  {
    seq(|s|, i requires 0 <= i < |s| => if s[i] == ' ' then '_' else s[i])
  }

  /** Characters kept by `re.sub(r'[^\w\-.]', '', s)`; `isWord` is Python's
      Unicode-aware `\w`. */
  predicate Kept(c: char, isWord: char -> bool) {
    isWord(c) || c == '-' || c == '.'
  }

  /** Drops every character that is not kept, preserving the order of the rest. */
  function KeepAllowed(s: string, isWord: char -> bool): (r: string)
    ensures |r| <= |s|
    ensures forall i :: 0 <= i < |r| ==> Kept(r[i], isWord) && r[i] in s
    ensures (forall i :: 0 <= i < |s| ==> Kept(s[i], isWord)) ==> r == s
  {
    if |s| == 0 then []
    else if Kept(s[0], isWord) then [s[0]] + KeepAllowed(s[1..], isWord)
    else KeepAllowed(s[1..], isWord)
  }

  /** The filter works character by character and keeps the order: the
      result for a concatenation is the concatenation of the results, a
      kept character stays and any other goes. */
  lemma {:induction false} KeepAllowedAppend(a: string, b: string, isWord: char -> bool)
    ensures KeepAllowed(a + b, isWord) == KeepAllowed(a, isWord) + KeepAllowed(b, isWord)
    ensures forall c :: KeepAllowed([c], isWord) == if Kept(c, isWord) then [c] else []
  {
    if |a| == 0 {
      assert a + b == b;
    } else {
      assert (a + b)[0] == a[0] && (a + b)[1..] == a[1..] + b;
      KeepAllowedAppend(a[1..], b, isWord);
    }
    forall c ensures KeepAllowed([c], isWord) == if Kept(c, isWord) then [c] else [] {
      assert [c][1..] == [];
    }
  }

  /** `os.path.basename` as the sanitiser takes it, `split('/')[-1]` and then
      `split('\\')[-1]`: the longest suffix holding neither separator. */
  function BaseName(path: string): (r: string)
    ensures |r| <= |path| && r == path[|path| - |r|..]
    ensures '/' !in r && '\\' !in r
    ensures r == path || path[|path| - |r| - 1] == '/' || path[|path| - |r| - 1] == '\\'
  {
    var k1 := CutIndex(path, '/');
    CutTwice(path, k1, CutIndex(path[k1..], '\\'));
    AfterLast(AfterLast(path, '/'), '\\')
  }

  /** Cutting `path` after position `k1` and then the rest after `k2`, where
      each cut follows the last separator of its kind, leaves the longest
      suffix without either separator. */
  lemma CutTwice(path: string, k1: nat, k2: nat)
    requires k1 <= |path| && k2 <= |path| - k1
    requires forall i :: k1 <= i < |path| ==> path[i] != '/'
    requires k1 == 0 || path[k1 - 1] == '/'
    requires forall i :: k2 <= i < |path[k1..]| ==> path[k1..][i] != '\\'
    requires k2 == 0 || path[k1..][k2 - 1] == '\\'
    ensures var r := path[k1..][k2..];
      && |r| <= |path| && r == path[|path| - |r|..]
      && '/' !in r && '\\' !in r
      && (r == path || path[|path| - |r| - 1] == '/' || path[|path| - |r| - 1] == '\\')
  {
    var r := path[k1..][k2..];
    assert r == path[k1 + k2..];
    forall i | 0 <= i < |r| ensures r[i] != '/' && r[i] != '\\' {
      assert r[i] == path[k1 + k2 + i] == path[k1..][k2 + i];
    }
    if k2 > 0 {
      assert path[k1 + k2 - 1] == path[k1..][k2 - 1];
    }
  }

  /** `sanitize_filename`: the result is a safe name no longer than the last
      path component. */
  function SanitizeFilename(filename: string, isWord: char -> bool): (r: string)
    ensures IsSafeFilename(r, isWord)
    ensures |r| <= |BaseName(filename)|
  {
    var spaced := ReplaceSpaces(BaseName(filename));
    ReplaceSpacesClean(BaseName(filename));
    KeepAllowedSafe(spaced, isWord);
    KeepAllowed(spaced, isWord)
  }

  /** A name the sanitiser leaves as it is. */
  predicate IsSafeFilename(name: string, isWord: char -> bool) {
    forall i :: 0 <= i < |name| ==> name[i] != '/' && name[i] != '\\' && name[i] != ' ' && Kept(name[i], isWord)
  }

  /** Replacing spaces adds no separator and leaves no space. */
  lemma ReplaceSpacesClean(base: string)
    requires '/' !in base && '\\' !in base
    ensures ' ' !in ReplaceSpaces(base) && '/' !in ReplaceSpaces(base) && '\\' !in ReplaceSpaces(base)
  {
    var spaced := ReplaceSpaces(base);
    forall k | 0 <= k < |spaced|
      ensures spaced[k] != ' ' && spaced[k] != '/' && spaced[k] != '\\'
    {
      assert base[k] in base;
    }
  }

  /** Filtering a clean string leaves a safe name. */
  lemma KeepAllowedSafe(spaced: string, isWord: char -> bool)
    requires ' ' !in spaced && '/' !in spaced && '\\' !in spaced
    ensures IsSafeFilename(KeepAllowed(spaced, isWord), isWord)
  {
  }

  /** A safe name, `..` included, comes out unchanged. */
  lemma {:induction false} SanitizeKeepsSafe(name: string, isWord: char -> bool)
    requires IsSafeFilename(name, isWord)
    ensures SanitizeFilename(name, isWord) == name
  {
    BaseNameNoSeparator(name);
    assert ReplaceSpaces(name) == name;
  }

  /** A name without separators is its own last component. */
  lemma BaseNameNoSeparator(name: string)
    requires forall i :: 0 <= i < |name| ==> name[i] != '/' && name[i] != '\\'
    ensures BaseName(name) == name
  {
    AfterLastNoOccurrence(name, '/');
    AfterLastNoOccurrence(name, '\\');
  }

  lemma SanitizeIdempotent(filename: string, isWord: char -> bool)
    ensures SanitizeFilename(SanitizeFilename(filename, isWord), isWord) == SanitizeFilename(filename, isWord)
  {
    SanitizeKeepsSafe(SanitizeFilename(filename, isWord), isWord);
  }

  /** In a name without separators, made of kept characters and spaces,
      every space becomes `_` (when `_` is a word character, as in Python)
      and every other character stays where it was. */
  lemma SanitizeReplacesSpaces(name: string, isWord: char -> bool)
    requires isWord('_')
    requires forall i :: 0 <= i < |name| ==> name[i] == ' ' || (name[i] != '/' && name[i] != '\\' && Kept(name[i], isWord))
    ensures |SanitizeFilename(name, isWord)| == |name|
    ensures forall i :: 0 <= i < |name| ==> SanitizeFilename(name, isWord)[i] == if name[i] == ' ' then '_' else name[i]
  {
    forall i | 0 <= i < |name| ensures name[i] != '/' && name[i] != '\\' {
      if name[i] == ' ' {
        assert name[i] != '/' && name[i] != '\\';
      }
    }
    BaseNameNoSeparator(name);
    var spaced := ReplaceSpaces(name);
    assert forall i :: 0 <= i < |spaced| ==> Kept(spaced[i], isWord);
  }

  lemma AfterLastAppend(prefix: string, c: char, rest: string)
    ensures AfterLast(prefix + [c] + rest, c) == AfterLast(rest, c)
  {
    var s := prefix + [c] + rest;
    var k := CutIndex(rest, c);
    forall i | |prefix| + 1 + k <= i < |s| ensures s[i] != c {
      assert s[i] == rest[i - |prefix| - 1];
    }
    assert s[|prefix| + k] == c by {
      if k > 0 { assert s[|prefix| + k] == rest[k - 1]; }
    }
    CutIndexUnique(s, c, |prefix| + 1 + k);
    assert s[|prefix| + 1 + k..] == rest[k..];
  }

  lemma AfterLastNoOccurrence(s: string, c: char)
    requires c !in s
    ensures AfterLast(s, c) == s
  {
    forall i | 0 <= i < |s| ensures s[i] != c {
      assert s[i] in s;
    }
    CutIndexUnique(s, c, 0);
  }

  /** Appending text without `c` extends the text after the last `c`. */
  lemma AfterLastExtend(s: string, tail: string, c: char)
    requires c !in tail
    ensures AfterLast(s + tail, c) == AfterLast(s, c) + tail
  {
    var st := s + tail;
    var k := CutIndex(s, c);
    forall i | k <= i < |st| ensures st[i] != c {
      if i >= |s| { assert st[i] == tail[i - |s|]; assert tail[i - |s|] in tail; }
    }
    CutIndexUnique(st, c, k);
    assert st[k..] == s[k..] + tail;
  }

  lemma BaseNameAfterSlash(dir: string, name: string)
    ensures BaseName(dir + ['/'] + name) == BaseName(name)
  {
    AfterLastAppend(dir, '/', name);
  }

  lemma BaseNameAfterBackslash(dir: string, name: string)
    ensures BaseName(dir + ['\\'] + name) == BaseName(name)
  {
    var s := dir + ['\\'] + name;
    if '/' in name {
      var k :| 0 <= k < |name| && name[k] == '/';
      var n1, n2 := name[..k], name[k + 1..];
      assert name == n1 + ['/'] + n2;
      assert s == (dir + ['\\'] + n1) + ['/'] + n2;
      AfterLastAppend(dir + ['\\'] + n1, '/', n2);
      AfterLastAppend(n1, '/', n2);
    } else {
      AfterLastNoOccurrence(name, '/');
      AfterLastExtend(dir + ['\\'], name, '/');
      AfterLastExtend(dir, ['\\'], '/');
      var pre := AfterLast(dir, '/');
      assert AfterLast(s, '/') == pre + ['\\'] + name;
      AfterLastAppend(pre, '\\', name);
    }
  }

  /** Directory components before a `/` or a `\` are discarded. */
  lemma SanitizeIgnoresDirectories(dir: string, name: string, isWord: char -> bool)
    ensures SanitizeFilename(dir + "/" + name, isWord) == SanitizeFilename(name, isWord)
    ensures SanitizeFilename(dir + "\\" + name, isWord) == SanitizeFilename(name, isWord)
  {
    assert dir + "/" + name == dir + ['/'] + name;
    assert dir + "\\" + name == dir + ['\\'] + name;
    BaseNameAfterSlash(dir, name);
    BaseNameAfterBackslash(dir, name);
  }

  // ---------------------------------------------------------------------
  // validate_s3_key
  // ---------------------------------------------------------------------

  /** `'//' in s`. */
  function ContainsDoubleSlash(s: string): (b: bool)
    ensures b <==> exists i :: 0 <= i < |s| - 1 && s[i] == '/' && s[i + 1] == '/'
  {
    if |s| < 2 then false
    else if s[0] == '/' && s[1] == '/' then true
    else ContainsDoubleSlash(s[1..])
  }

  /** `any(ord(c) < 32 for c in s)`. */
  function ContainsControlChar(s: string): (b: bool)
    ensures b <==> exists i :: 0 <= i < |s| && (s[i] as int) < 32
  {
    if |s| == 0 then false
    else (s[0] as int) < 32 || ContainsControlChar(s[1..])
  }

  function ValidateS3Key(key: string): (ok: bool)
    ensures !ok <==>
      || |key| == 0
      || key[0] == '/'
      || (exists i :: 0 <= i < |key| - 1 && key[i] == '/' && key[i + 1] == '/')
      || (exists i :: 0 <= i < |key| && (key[i] as int) < 32)
  {
    if |key| == 0 || key[0] == '/' || ContainsDoubleSlash(key) then false
    else if ContainsControlChar(key) then false
    else true
  }

  /** Neither a trailing `/` nor DEL (code 127) is rejected. */
  lemma S3KeyTrailingSlashAndDelete()
    ensures ValidateS3Key("uploads/")
    ensures ValidateS3Key("a\U{7F}")
    ensures !ValidateS3Key("a//b")
  {
    assert "a//b"[1] == '/' && "a//b"[2] == '/';
  }

  // ---------------------------------------------------------------------
  // validate_uuid: ^[a-f0-9]{8}-[a-f0-9]{4}-[a-f0-9]{4}-[a-f0-9]{4}-[a-f0-9]{12}$
  // ---------------------------------------------------------------------

  /** The pattern read left to right: groups of hex digits of the given
      lengths, separated by single `-`. */
  predicate MatchesGroups(s: string, lengths: seq<nat>)
    decreases |lengths|
  {
    if |lengths| == 0 then |s| == 0
    else
      && |s| >= lengths[0]
      && (forall k :: 0 <= k < lengths[0] ==> IsHexDigit(s[k]))
      && if |lengths| == 1 then |s| == lengths[0]
         else |s| > lengths[0] && s[lengths[0]] == '-' && MatchesGroups(s[lengths[0] + 1..], lengths[1..])
  }

  const UuidGroupLengths: seq<nat> := [8, 4, 4, 4, 12]

  predicate IsUuidDash(i: int) { i == 8 || i == 13 || i == 18 || i == 23 }

  /** The check by position: 36 characters, dashes at 8, 13, 18, 23 and hex
      digits everywhere else. */
  predicate HasUuidLayout(s: string) {
    |s| == 36 && forall i :: 0 <= i < 36 ==> if IsUuidDash(i) then s[i] == '-' else IsHexDigit(s[i])
  }

  /** `validate_uuid`: the check by position, with the one trailing newline
      `$` lets through. It accepts exactly what the grouped pattern does. */
  function ValidateUuid(uuid: string): (ok: bool)
    ensures ok <==>
      || MatchesGroups(uuid, UuidGroupLengths)
      || (EndsWithNewline(uuid) && MatchesGroups(uuid[..|uuid| - 1], UuidGroupLengths))
  {
    UuidLayoutIff(uuid);
    if EndsWithNewline(uuid) then
      UuidLayoutIff(uuid[..|uuid| - 1]);
      HasUuidLayout(uuid) || HasUuidLayout(uuid[..|uuid| - 1])
    else HasUuidLayout(uuid)
  }

  /** One group of `n` hex digits followed by the rest. */
  lemma GroupStep(s: string, lengths: seq<nat>)
    requires |lengths| >= 2
    ensures MatchesGroups(s, lengths) <==>
      && |s| > lengths[0]
      && (forall k :: 0 <= k < lengths[0] ==> IsHexDigit(s[k]))
      && s[lengths[0]] == '-'
      && MatchesGroups(s[lengths[0] + 1..], lengths[1..])
  {
  }

  /** `n` hex digits from position `off` on. */
  predicate HexRun(s: string, off: nat, n: nat)
    requires off + n <= |s|
  {
    forall k :: off <= k < off + n ==> IsHexDigit(s[k])
  }

  /** A group of the pattern read in place, at offset `off` of `s`. */
  lemma GroupAt(s: string, off: nat, lengths: seq<nat>)
    requires |lengths| >= 2 && off <= |s|
    ensures MatchesGroups(s[off..], lengths) <==>
      && off + lengths[0] < |s|
      && HexRun(s, off, lengths[0])
      && s[off + lengths[0]] == '-'
      && MatchesGroups(s[off + lengths[0] + 1..], lengths[1..])
  {
    var n := lengths[0];
    GroupStep(s[off..], lengths);
    if off + n < |s| {
      assert s[off..][n + 1..] == s[off + n + 1..];
      assert s[off..][n] == s[off + n];
      forall k | off <= k < off + n ensures s[off..][k - off] == s[k] { }
    }
  }

  /** The final group, which must end the string. */
  lemma LastGroupAt(s: string, off: nat, n: nat)
    requires off <= |s|
    ensures MatchesGroups(s[off..], [n]) <==> |s| == off + n && HexRun(s, off, n)
  {
    if |s| == off + n {
      forall k | off <= k < off + n ensures s[off..][k - off] == s[k] { }
    }
  }

  /** The pattern's groups as runs at fixed offsets. */
  predicate FlatGroups(s: string) {
    && |s| == 36
    && HexRun(s, 0, 8) && s[8] == '-'
    && HexRun(s, 9, 4) && s[13] == '-'
    && HexRun(s, 14, 4) && s[18] == '-'
    && HexRun(s, 19, 4) && s[23] == '-'
    && HexRun(s, 24, 12)
  }

  lemma GroupsAreFlat(s: string)
    ensures MatchesGroups(s, UuidGroupLengths) <==> FlatGroups(s)
  {
    var L := UuidGroupLengths;
    assert L[1..] == [4, 4, 4, 12] && L[2..] == [4, 4, 12] && L[3..] == [4, 12] && L[4..] == [12];
    assert s[0..] == s;
    GroupAt(s, 0, L);
    if |s| >= 9 {
      GroupAt(s, 9, L[1..]);
      if |s| >= 14 {
        GroupAt(s, 14, L[2..]);
        if |s| >= 19 {
          GroupAt(s, 19, L[3..]);
          if |s| >= 24 {
            LastGroupAt(s, 24, 12);
          }
        }
      }
    }
  }

  lemma FlatIsLayout(s: string)
    ensures FlatGroups(s) <==> HasUuidLayout(s)
  {
  }

  /** Reading the pattern group by group and checking positions agree. */
  lemma UuidLayoutIff(s: string)
    ensures HasUuidLayout(s) <==> MatchesGroups(s, UuidGroupLengths)
  {
    GroupsAreFlat(s);
    FlatIsLayout(s);
  }
}
