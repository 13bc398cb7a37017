/** The parser's character classes, measured against the standards' own definitions. */
module CharacterClasses {
  import opened Messages
  import opened HttpRequest
  import Fields

  /** VCHAR, section 2.1 of RFC 9110. */
  predicate IsVisible(c: char) {
    '!' <= c <= '~'
  }

  /** A token character is a visible one that is no delimiter (section 5.6.2 of RFC 9110). */
  lemma TokenCharsAreStandard(c: char)
    ensures IsTokenChar(c) <==> IsVisible(c) && c !in "\"(),/:;<=>?@[\\]{}"
  {
  }

  /** A value holds no control character but the tab (section 5.5 of RFC 9110); bytes from 128 on are taken as they are. */
  lemma ValueCharsAreStandard(c: char)
    ensures IsValueChar(c) <==> IsVisible(c) || c in " \t" || c >= '\U{80}'
  {
  }

  predicate IsAlphanumeric(c: char) {
    'a' <= c <= 'z' || 'A' <= c <= 'Z' || '0' <= c <= '9'
  }

  /** The characters of a path and a query, section 3 of RFC 3986; '%' begins an encoded one. */
  predicate IsPathOrQueryChar(c: char) {
    IsAlphanumeric(c) || c in "-._~" || c in "!$&'()*+,;=" || c in ":@/?%"
  }

  /** What the code takes in a target besides. */
  predicate IsExtraTargetChar(c: char) {
    c in "\"<>[]^`{|}"
  }

  lemma TargetChars(c: char)
    ensures ' ' < c < '\U{7f}' && c != '#' && c != '\\' <==> IsPathOrQueryChar(c) || IsExtraTargetChar(c)
  {
  }

  /** Every target in origin form is accepted; what is accepted besides holds one of those ten characters. */
  lemma TargetsBeyondStandard(target: string)
    requires target != "" && target[0] == '/'
    ensures (forall i :: 0 <= i < |target| ==> IsPathOrQueryChar(target[i])) ==> IsValidTarget(target)
    ensures IsValidTarget(target) <==>
      forall i :: 0 <= i < |target| ==> IsPathOrQueryChar(target[i]) || IsExtraTargetChar(target[i])
  {
    forall i | 0 <= i < |target|
      ensures ' ' < target[i] < '\U{7f}' && target[i] != '#' && target[i] != '\\'
          <==> IsPathOrQueryChar(target[i]) || IsExtraTargetChar(target[i])
    {
      TargetChars(target[i]);
    }
  }

  lemma TargetsAreOriginForm(target: string)
    requires IsValidTarget(target)
    ensures target != "" && target[0] == '/'
  {
  }

  /** Optional whitespace (section 5.6.3 of RFC 9110), and what the rule files trim. */
  lemma BlanksAreStandard(c: char)
    ensures IsOptionalWhitespace(c) <==> c in " \t"
    ensures Fields.IsSpace(c) <==> c in " \t\n\U{0B}\U{0C}\r"
  {
  }

  function Upper(c: char): char {
    if 'a' <= c <= 'z' then c - 'a' + 'A' else c
  }

  function Uppered(s: string): (u: string)
    ensures |u| == |s| && forall i :: 0 <= i < |s| ==> u[i] == Upper(s[i])
  {
    seq(|s|, i requires 0 <= i < |s| => Upper(s[i]))
  }

  /** Names are equal exactly if they are the same but for the case of their letters (section 5.1 of RFC 9110). */
  lemma NamesIgnoreCase(a: string, b: string)
    ensures NameEquals(a, b) <==> Uppered(a) == Uppered(b)
  {
    if |a| == |b| {
      forall i | 0 <= i < |a| ensures AsciiLower(a[i]) == AsciiLower(b[i]) <==> Upper(a[i]) == Upper(b[i]) {
      }
    }
    if NameEquals(a, b) {
      assert forall i :: 0 <= i < |a| ==> Uppered(a)[i] == Uppered(b)[i];
    }
    if Uppered(a) == Uppered(b) {
      assert forall i :: 0 <= i < |a| ==> Uppered(a)[i] == Upper(a[i]) && Uppered(b)[i] == Upper(b[i]);
    }
  }
}
