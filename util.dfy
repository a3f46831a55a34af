/** Name normalisation (`formatName`) and the always-failing `error`
    reporter of `onshape_mjcf/util/__init__.py`. `\w`, `strip` and `lower`
    are taken on ASCII. */
module Util {
  import opened Wrappers
  import opened Strings

  /** A character of the regular-expression class `[\w_\. ]`. */
  predicate NameChar(c: char) {
    'a' <= c <= 'z' || 'A' <= c <= 'Z' || '0' <= c <= '9' || c == '_' || c == '.' || c == ' '
  }

  predicate AllNameChars(s: string) {
    forall i :: 0 <= i < |s| ==> NameChar(s[i])
  }

  predicate AllDigits(s: string) {
    forall i :: 0 <= i < |s| ==> IsDigit(s[i])
  }

  /** `s` is `group + "<" + digits + ">"` as `^([\w_\. ]+)<[0-9]+>$`
      requires of a full match, with `group` the captured text. */
  ghost predicate FullMatch(s: string, group: string) {
    exists d :: s == group + "<" + d + ">" && |group| >= 1 && AllNameChars(group) && |d| >= 1 && AllDigits(d)
  }

  /** The position of the first `c` in `s`, or `|s|`. */
  function IndexOf(s: string, c: char): (i: nat)
    ensures i <= |s| && c !in s[..i]
    ensures i < |s| ==> s[i] == c
  {
    if |s| == 0 then 0
    else if s[0] == c then 0
    else
      var j := IndexOf(s[1..], c);
      assert s[..j + 1] == [s[0]] + s[1..][..j];
      j + 1
  }

  /** Where a full match puts the `<`, the digits and the `>`. */
  lemma MatchShape(s: string, g: string)
    requires FullMatch(s, g)
    ensures IndexOf(s, '<') == |g| && 1 <= |g| && |g| + 2 < |s| && s[|s| - 1] == '>'
    ensures s[..|g|] == g && AllDigits(s[|g| + 1..|s| - 1])
  {
    var d :| s == g + "<" + d + ">" && |g| >= 1 && AllNameChars(g) && |d| >= 1 && AllDigits(d);
    var i := IndexOf(s, '<');
    assert s[|g|] == '<';
    assert s[..|g|] == g;
    assert s[|g| + 1..|s| - 1] == d;
  }

  /** `re.fullmatch(r"^([\w_\. ]+)<[0-9]+>$", s)`, giving group 1 on a match. */
  function MatchGroup(s: string): (r: Option<string>)
    ensures r.Some? ==> FullMatch(s, r.value)
    ensures r.None? ==> forall g :: !FullMatch(s, g)
  {
    var i := IndexOf(s, '<');
    if 1 <= i && i + 2 < |s| && s[|s| - 1] == '>' && AllNameChars(s[..i]) && AllDigits(s[i + 1..|s| - 1]) then
      assert s == s[..i] + "<" + s[i + 1..|s| - 1] + ">";
      Some(s[..i])
    else
      forall g | FullMatch(s, g)
        ensures false
      {
        MatchShape(s, g);
      }
      None
  }

  /** `formatName(name)`: drop a `<n>` instance suffix, then strip, lower-case
      and turn spaces into underscores. */
  function FormatName(name: string): (r: string)
    ensures |r| == 0 || (!IsSpace(r[0]) && !IsSpace(r[|r| - 1]))
    ensures forall i :: 0 <= i < |r| ==> !IsUpper(r[i]) && r[i] != ' '
  {
    var base := match MatchGroup(name) case Some(g) => g case None => name;
    Normalise(base)
  }

  /** Strip, lower-case, and turn spaces into underscores. */
  function Normalise(s: string): (r: string)
    ensures |r| == 0 || (!IsSpace(r[0]) && !IsSpace(r[|r| - 1]))
    ensures forall i :: 0 <= i < |r| ==> !IsUpper(r[i]) && r[i] != ' '
  {
    var t := Strip(s);
    LoweredShape(t);
    ReplaceChar(Lower(t), ' ', '_')
  }

  /** Lower-casing and replacing spaces keep a stripped string stripped and
      leave no capital and no space. */
  lemma LoweredShape(t: string)
    requires |t| == 0 || (!IsSpace(t[0]) && !IsSpace(t[|t| - 1]))
    ensures var r := ReplaceChar(Lower(t), ' ', '_');
      && (|r| == 0 || (!IsSpace(r[0]) && !IsSpace(r[|r| - 1])))
      && forall i :: 0 <= i < |r| ==> !IsUpper(r[i]) && r[i] != ' '
  {
    var l := Lower(t);
    var r := ReplaceChar(l, ' ', '_');
    if |r| > 0 {
      assert l[0] == LowerChar(t[0]) && l[|l| - 1] == LowerChar(t[|t| - 1]);
    }
    forall i | 0 <= i < |r|
      ensures !IsUpper(r[i]) && r[i] != ' '
    {
      assert l[i] == LowerChar(t[i]);
    }
  }

  /** Normalising twice changes nothing more: the result is already stripped,
      lower-case and free of spaces. */
  lemma NormaliseIdempotent(s: string)
    ensures Normalise(Normalise(s)) == Normalise(s)
  {
    var r := Normalise(s);
    assert StripLeft(r) == r;
    assert StripRight(r) == r;
    assert Strip(r) == r;
    assert Lower(r) == r;
    assert ReplaceChar(r, ' ', '_') == r;
  }

  /** The information separators U+001C to U+001F count as whitespace, as
      `str.isspace` says. */
  lemma NormaliseSeparator()
    ensures Normalise("\U{1F}a") == "a"
  {
    assert StripLeft("\U{1F}a") == "a" by {
      assert "\U{1F}a"[1..] == "a";
    }
    assert StripRight("a") == "a";
    assert Lower("a") == "a";
  }

  /** A name of the form `group<digits>` loses its suffix. */
  lemma FormatNameSuffix(name: string, group: string)
    requires FullMatch(name, group)
    ensures FormatName(name) == Normalise(group)
  {
    MatchShape(name, group);
  }

  /** A name not of that form is only normalised. */
  lemma FormatNameNoSuffix(name: string)
    requires forall g :: !FullMatch(name, g)
    ensures FormatName(name) == Normalise(name)
  {
  }

  lemma NoMatchTrailingSpace()
    ensures MatchGroup("A<1> ").None?
  {
    assert "A<1> "[4] != '>';
  }

  lemma StripTrailingSpace()
    ensures Strip("A<1> ") == "A<1>"
  {
    assert StripLeft("A<1> ") == "A<1> ";
    assert StripRight("A<1> ") == "A<1>" by {
      assert "A<1> "[..4] == "A<1>";
      assert StripRight("A<1>") == "A<1>";
    }
  }

  lemma LowerSuffixed()
    ensures ReplaceChar(Lower("A<1>"), ' ', '_') == "a<1>"
  {
    var l := Lower("A<1>");
    assert l == "a<1>" by {
      assert l[0] == LowerChar('A');
    }
    var r := ReplaceChar(l, ' ', '_');
    assert r == "a<1>" by {
      assert r[0] == 'a' && r[1] == '<' && r[2] == '1' && r[3] == '>';
    }
  }

  lemma NormaliseTrailingSpace()
    ensures Normalise("A<1> ") == "a<1>"
  {
    StripTrailingSpace();
    LowerSuffixed();
  }

  lemma MatchSuffix()
    ensures MatchGroup("a<1>") == Some("a")
  {
    assert IndexOf("a<1>", '<') == 1 by {
      assert "a<1>"[1..] == "<1>";
    }
    assert "a<1>"[..1] == "a";
    assert "a<1>"[2..3] == "1";
  }

  lemma NormaliseA()
    ensures Normalise("a") == "a"
  {
    assert StripLeft("a") == "a";
    assert StripRight("a") == "a";
    assert Lower("a") == "a";
  }

  /** A trailing space hides the suffix from the match, so `formatName` is not
      idempotent. */
  lemma FormatNameNotIdempotent()
    ensures FormatName("A<1> ") == "a<1>"
    ensures FormatName("a<1>") == "a"
  {
    NoMatchTrailingSpace();
    NormaliseTrailingSpace();
    MatchSuffix();
    NormaliseA();
  }

  /** `error(msg)`: always fails with `msg`. */
  function Error<T>(msg: string): (r: Result<T>)
    ensures r.IsFailure() && r.msg == msg
  {
    Err(msg)
  }
}
