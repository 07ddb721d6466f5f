/** The hero's messenger deep links: the phone number is cleaned down to
    its digits and `+` signs, then appended to one of three fixed URL
    prefixes. */
module Messenger {
  import opened Options
  import opened Seqs
  import opened Text

  /** The class `[0-9+]`: what `replace(/[^0-9+]/g, '')` keeps. */
  predicate IsLinkChar(c: char)
  {
    IsAsciiDigit(c) || c == '+'
  }

  /** `phone.replace(/[^0-9+]/g, '')` */
  function Clean(phone: string): (r: string)
    ensures forall i :: 0 <= i < |r| ==> IsLinkChar(r[i])
    ensures forall c :: multiset(r)[c] == if IsLinkChar(c) then multiset(phone)[c] else 0
  {
    FilterMultisetAll(IsLinkChar, phone);
    Filter(IsLinkChar, phone)
  }

  /** The cleaned number keeps the kept characters in their order. */
  lemma CleanIsSubsequence(phone: string)
    ensures IsSubsequence(Clean(phone), phone)
  {
    FilterIsSubsequence(IsLinkChar, phone);
  }

  /** Cleaning a cleaned number changes nothing. */
  lemma CleanIdempotent(phone: string)
    ensures Clean(Clean(phone)) == Clean(phone)
  {
    FilterIdempotent(IsLinkChar, phone);
  }

  /** A number is left as it is exactly when it holds only digits and `+`. */
  lemma CleanIdentity(phone: string)
    ensures Clean(phone) == phone <==> forall i :: 0 <= i < |phone| ==> IsLinkChar(phone[i])
  {
    FilterIdentity(IsLinkChar, phone);
  }

  /** Cleaning works piecewise: a kept character stays where it stands. */
  lemma CleanKeepsLinkChar(x: string, c: char, y: string)
    requires IsLinkChar(c)
    ensures Clean(x + [c] + y) == Clean(x) + [c] + Clean(y)
  {
    assert Filter(IsLinkChar, [c]) == [c] by {
      assert [c][1..] == [];
    }
    FilterAppend(IsLinkChar, x + [c], y);
    FilterAppend(IsLinkChar, x, [c]);
  }

  /** In particular a `+` is kept anywhere, not only in front. */
  lemma CleanKeepsPlus(x: string, y: string)
    ensures Clean(x + ['+'] + y) == Clean(x) + ['+'] + Clean(y)
  {
    CleanKeepsLinkChar(x, '+', y);
  }

  /** A number without digits or `+` cleans to nothing. */
  lemma CleanNothingKept(phone: string)
    requires forall i :: 0 <= i < |phone| ==> !IsLinkChar(phone[i])
    ensures Clean(phone) == []
  {
  }

  /** Kept characters followed by dropped ones clean to the kept part. */
  lemma CleanPrefixKept(code: string, rest: string)
    requires forall i :: 0 <= i < |code| ==> IsLinkChar(code[i])
    requires forall i :: 0 <= i < |rest| ==> !IsLinkChar(rest[i])
    ensures Clean(code + rest) == code
  {
    FilterAppend(IsLinkChar, code, rest);
    CleanIdentity(code);
    CleanNothingKept(rest);
  }

  datatype Messenger = Messenger(name: string, color: string, prefix: string)

  const WhatsApp: Messenger := Messenger("WhatsApp", "#25D366", "https://wa.me/")
  const Viber: Messenger := Messenger("Viber", "#7360F2", "viber://chat?number=")
  const Telegram: Messenger := Messenger("Telegram", "#0088CC", "https://t.me/")

  /** The buttons, in the order they are rendered. */
  const Messengers: seq<Messenger> := [WhatsApp, Viber, Telegram]

  /** `generateLink(phone)` of a messenger. */
  function GenerateLink(m: Messenger, phone: string): (r: string)
    ensures |m.prefix| <= |r| && r[..|m.prefix|] == m.prefix
    ensures r[|m.prefix|..] == Clean(phone)
  {
    m.prefix + Clean(phone)
  }

  /** A link starts with a prefix. */
  predicate HasPrefix(link: string, prefix: string)
  {
    |prefix| <= |link| && link[..|prefix|] == prefix
  }

  /** The inverse of the three builders, against which they are checked
      (`ParseGenerate`): the index in `Messengers` of the prefix a link
      starts with, and the rest of the link. */
  function ParseLink(link: string): (r: Option<(nat, string)>)
    ensures r.Some? ==> r.value.0 < |Messengers| && link == Messengers[r.value.0].prefix + r.value.1
    ensures r.None? <==> forall j :: 0 <= j < |Messengers| ==> !HasPrefix(link, Messengers[j].prefix)
  {
    if HasPrefix(link, WhatsApp.prefix) then Some((0, link[|WhatsApp.prefix|..]))
    else if HasPrefix(link, Viber.prefix) then Some((1, link[|Viber.prefix|..]))
    else if HasPrefix(link, Telegram.prefix) then Some((2, link[|Telegram.prefix|..]))
    else None
  }

  /** Of any two messengers, neither prefix starts a link of the other: they
      differ at a position both prefixes have. */
  lemma PrefixesDiffer(i: int, j: int)
    requires 0 <= i < |Messengers| && 0 <= j < |Messengers| && i != j
    ensures exists k :: (0 <= k < |Messengers[i].prefix| && k < |Messengers[j].prefix| &&
      Messengers[i].prefix[k] != Messengers[j].prefix[k])
  {
    var a, b := Messengers[i].prefix, Messengers[j].prefix;
    if (i == 0 && j == 2) || (i == 2 && j == 0) {
      assert a[8] != b[8];
    } else {
      assert a[0] != b[0];
    }
  }

  /** A link built with messenger `i` does not start with the prefix of
      another messenger `j`. */
  lemma OtherPrefixAbsent(i: int, j: int, link: string)
    requires 0 <= i < |Messengers| && 0 <= j < |Messengers| && i != j
    requires HasPrefix(link, Messengers[i].prefix)
    ensures !HasPrefix(link, Messengers[j].prefix)
  {
    PrefixesDiffer(i, j);
    var k :| 0 <= k < |Messengers[i].prefix| && k < |Messengers[j].prefix| &&
      Messengers[i].prefix[k] != Messengers[j].prefix[k];
    assert link[..|Messengers[i].prefix|][k] == link[k];
  }

  /** Every link a button builds parses back to that button and the cleaned
      number. */
  lemma ParseGenerate(i: int, phone: string)
    requires 0 <= i < |Messengers|
    ensures ParseLink(GenerateLink(Messengers[i], phone)) == Some((i, Clean(phone)))
  {
    var link := GenerateLink(Messengers[i], phone);
    if i >= 1 {
      OtherPrefixAbsent(i, 0, link);
    }
    if i == 2 {
      OtherPrefixAbsent(i, 1, link);
    }
  }

  /** Two buttons' links are equal only when the buttons and the cleaned
      numbers are. */
  lemma LinksDetermineMessenger(i: int, j: int, p: string, q: string)
    requires 0 <= i < |Messengers| && 0 <= j < |Messengers|
    requires GenerateLink(Messengers[i], p) == GenerateLink(Messengers[j], q)
    ensures i == j && Clean(p) == Clean(q)
  {
    ParseGenerate(i, p);
    ParseGenerate(j, q);
  }

  /** The site's placeholder number cleans to its country code. */
  lemma SiteNumber()
    ensures Clean("+421 XXX XXX XXX") == "+421"
  {
    var code, rest := "+421", " XXX XXX XXX";
    assert "+421 XXX XXX XXX" == code + rest;
    assert forall i :: 0 <= i < |rest| ==> !IsLinkChar(rest[i]);
    CleanPrefixKept(code, rest);
  }
}
