/** The three validation patterns, as predicates on strings with the meaning
    `Regex.IsMatch` gives them:
      Phone     ^\+7\d{10}$
      Email     ^[\w-\.]+@([\w-]+\.)+[\w-]{2,4}$
      Password  ^(?=.*\d).+$
    In .NET `$` matches at the end of the input and also just before a final
    line feed, and `.` matches anything but a line feed. None of the three
    bodies can match a line feed, so each pattern holds of a string exactly
    when its body holds of the string with at most one final line feed
    removed (`Chomp`). */
module RegexPatterns {

  /** `\d`. */
  predicate IsDigit(c: char) {
    '0' <= c <= '9'
  }

  /** `\w`: letters (Latin and Russian), digits and the underscore. */
  predicate IsWordChar(c: char) {
    ('a' <= c <= 'z') || ('A' <= c <= 'Z') || IsDigit(c) || c == '_'
    || ('А' <= c <= 'я') || c == 'Ё' || c == 'ё'
  }

  /** The part of the input the pattern before `$` must match. */
  function Chomp(s: string): (r: string)
    ensures |r| == |s| || (|r| == |s| - 1 && s[|s| - 1] == '\n')
    ensures r == s[..|r|]
  {
    if |s| > 0 && s[|s| - 1] == '\n' then s[..|s| - 1] else s
  }

  predicate NoLineFeed(s: string) {
    forall i :: 0 <= i < |s| ==> s[i] != '\n'
  }

  // ---------------------------------------------------------------------
  // Phone

  /** `\+7\d{10}`. */
  predicate PhoneBody(s: string) {
    |s| == 12 && s[0] == '+' && s[1] == '7' && forall i :: 2 <= i < 12 ==> IsDigit(s[i])
  }

  predicate Phone(s: string) {
    PhoneBody(Chomp(s))
  }

  /** An accepted phone is `+7` and ten digits, twelve characters, followed
      at most by one line feed; on a single line the pattern accepts exactly
      those twelve-character strings. */
  lemma PhoneShape(s: string)
    ensures Phone(s) ==> (|s| == 12 || (|s| == 13 && s[12] == '\n'))
    ensures Phone(s) ==> s[0] == '+' && s[1] == '7' && forall i :: 2 <= i < 12 ==> IsDigit(s[i])
    ensures NoLineFeed(s) ==> (Phone(s) <==> PhoneBody(s))
  {
    if Phone(s) {
      var b := Chomp(s);
      assert forall i :: 0 <= i < 12 ==> b[i] == s[i];
    }
    if NoLineFeed(s) && |s| > 0 {
      assert s[|s| - 1] != '\n';
    }
  }

  // ---------------------------------------------------------------------
  // Password

  /** `(?=.*\d).+` on a string that has no line feed: non-empty and holding a
      digit. */
  predicate PasswordBody(s: string) {
    |s| > 0 && NoLineFeed(s) && exists i :: 0 <= i < |s| && IsDigit(s[i])
  }

  predicate Password(s: string) {
    PasswordBody(Chomp(s))
  }

  /** On a single line the password pattern accepts exactly the non-empty
      strings with at least one digit. */
  lemma PasswordNeedsDigit(s: string)
    requires NoLineFeed(s)
    ensures Password(s) <==> |s| > 0 && exists i :: 0 <= i < |s| && IsDigit(s[i])
  {
    if |s| > 0 {
      assert s[|s| - 1] != '\n';
    }
  }

  // ---------------------------------------------------------------------
  // Email

  /** `[\w-\.]`: inside the class `-` and `.` are literal. */
  predicate LocalChar(c: char) {
    IsWordChar(c) || c == '-' || c == '.'
  }

  /** `[\w-]`. */
  predicate LabelChar(c: char) {
    IsWordChar(c) || c == '-'
  }

  /** The position of the first `c` in `s`, `|s|` when there is none. */
  function IndexOf(s: string, c: char): (i: nat)
    ensures i <= |s|
    ensures i < |s| ==> s[i] == c
    ensures forall j :: 0 <= j < i ==> s[j] != c
  {
    if s == [] then 0
    else if s[0] == c then 0
    else 1 + IndexOf(s[1..], c)
  }

  /** `[\w-]{2,4}`. */
  predicate FinalLabel(t: string) {
    2 <= |t| <= 4 && forall j :: 0 <= j < |t| ==> LabelChar(t[j])
  }

  /** `([\w-]+\.)+[\w-]{2,4}`. A label cannot hold a dot, so every repetition
      of the group ends at the first dot left, and what follows the last dot
      is the final label. */
  predicate Domain(d: string)
    decreases |d|
  {
    var i := IndexOf(d, '.');
    && 0 < i < |d|
    && (forall j :: 0 <= j < i ==> LabelChar(d[j]))
    && (FinalLabel(d[i + 1..]) || Domain(d[i + 1..]))
  }

  /** `[\w-\.]+@([\w-]+\.)+[\w-]{2,4}`. The local part cannot hold an `@`, so
      the `@` of the pattern is the first one. */
  predicate EmailBody(s: string) {
    var a := IndexOf(s, '@');
    && 0 < a < |s|
    && (forall j :: 0 <= j < a ==> LocalChar(s[j]))
    && Domain(s[a + 1..])
  }

  predicate Email(s: string) {
    EmailBody(Chomp(s))
  }

  lemma {:induction false} DomainHasNoAt(d: string)
    requires Domain(d)
    ensures forall j :: 0 <= j < |d| ==> d[j] != '@'
    decreases |d|
  {
    var i := IndexOf(d, '.');
    var rest := d[i + 1..];
    if !FinalLabel(rest) {
      DomainHasNoAt(rest);
    }
    forall j | 0 <= j < |d| ensures d[j] != '@' {
      if j > i { assert d[j] == rest[j - i - 1]; }
    }
  }

  lemma {:induction false} DomainEndsWithFinalLabel(d: string)
    requires Domain(d)
    ensures exists k :: 0 < k < |d| && d[k] == '.' && FinalLabel(d[k + 1..])
    decreases |d|
  {
    var i := IndexOf(d, '.');
    var rest := d[i + 1..];
    if !FinalLabel(rest) {
      DomainEndsWithFinalLabel(rest);
      var k :| 0 < k < |rest| && rest[k] == '.' && FinalLabel(rest[k + 1..]);
      assert d[i + 1 + k] == '.';
      assert d[i + 1 + k + 1..] == rest[k + 1..];
    }
  }

  /** An accepted email has exactly one `@`, preceded by a non-empty local
      part; after it the domain holds a dot, and what follows its last dot is
      two to four word characters or hyphens. */
  lemma EmailShape(s: string)
    requires Email(s)
    ensures var b := Chomp(s);
      exists a :: 0 < a < |b| && b[a] == '@'
        && (forall j :: 0 <= j < |s| && j != a ==> s[j] != '@')
        && (exists k :: a < k < |b| && b[k] == '.' && FinalLabel(b[k + 1..]))
  {
    var b := Chomp(s);
    var a := IndexOf(b, '@');
    assert 0 < a < |b| && Domain(b[a + 1..]);
    var d := b[a + 1..];
    DomainHasNoAt(d);
    SingleAt(s, b, a, d);
    DomainEndsWithFinalLabel(d);
    var k :| 0 < k < |d| && d[k] == '.' && FinalLabel(d[k + 1..]);
    assert b[a + 1 + k] == '.';
    assert b[a + 1 + k + 1..] == d[k + 1..];
    assert a < a + 1 + k < |b| && b[a + 1 + k] == '.' && FinalLabel(b[a + 1 + k + 1..]);
  }

  /** An `@` at `a` in the chomped input, with none before it and none in the
      domain after it, is the only `@` of the input. */
  lemma SingleAt(s: string, b: string, a: int, d: string)
    requires b == Chomp(s) && 0 <= a < |b| && d == b[a + 1..]
    requires forall j :: 0 <= j < a ==> b[j] != '@'
    requires forall j :: 0 <= j < |d| ==> d[j] != '@'
    ensures forall j :: 0 <= j < |s| && j != a ==> s[j] != '@'
  {
    forall j | 0 <= j < |s| && j != a ensures s[j] != '@' {
      if j < a {
        assert s[j] == b[j];
      } else if j < |b| {
        assert s[j] == d[j - a - 1];
      } else {
        assert s[j] == '\n';
      }
    }
  }
}
