/** The clean-ups the services apply to a stored reason, and the order of room codes. */
module Text {

  predicate IsSpace(ch: char) {
    ch == ' ' || ch == '\t' || ch == '\n' || ch == '\r'
  }

  function StripLeft(s: string): string {
    if s != "" && IsSpace(s[0]) then StripLeft(s[1..]) else s
  }

  function StripRight(s: string): string {
    if s != "" && IsSpace(s[|s| - 1]) then StripRight(s[..|s| - 1]) else s
  }

  function Strip(s: string): string {
    StripRight(StripLeft(s))
  }

  // The column holds 200 characters.
  function Truncate(s: string): string {
    if |s| <= 200 then s else s[..200]
  }

  // Dictionary order.
  predicate CodeLess(a: string, b: string) {
    b != "" && (a == "" || a[0] < b[0] || (a[0] == b[0] && CodeLess(a[1..], b[1..])))
  }

  lemma {:induction false} CodeOrder(a: string, b: string, e: string)
    ensures CodeLess(a, b) ==> !CodeLess(b, a)
    ensures !CodeLess(b, a) && !CodeLess(e, b) ==> !CodeLess(e, a)
  {
    if a != "" && b != "" {
      CodeOrder(a[1..], b[1..], if e == "" then "" else e[1..]);
    }
  }

  predicate Blank(s: string) {
    forall k :: 0 <= k < |s| ==> IsSpace(s[k])
  }

  lemma {:induction false} StripLeftDropsBlank(s: string) returns (front: string)
    ensures s == front + StripLeft(s) && Blank(front)
    ensures StripLeft(s) == "" || !IsSpace(StripLeft(s)[0])
  {
    if s != "" && IsSpace(s[0]) {
      var rest := StripLeftDropsBlank(s[1..]);
      front := [s[0]] + rest;
    } else {
      front := "";
    }
  }

  lemma {:induction false} StripRightDropsBlank(s: string) returns (back: string)
    ensures s == StripRight(s) + back && Blank(back)
    ensures StripRight(s) == "" || !IsSpace(StripRight(s)[|StripRight(s)| - 1])
  {
    if s != "" && IsSpace(s[|s| - 1]) {
      var rest := StripRightDropsBlank(s[..|s| - 1]);
      back := rest + [s[|s| - 1]];
    } else {
      back := "";
    }
  }

  // Stripping drops blanks from both ends and nothing else, and leaves none there.
  lemma StripDropsBlanks(s: string) returns (front: string, back: string)
    ensures s == front + Strip(s) + back && Blank(front) && Blank(back)
    ensures Strip(s) == "" || (!IsSpace(Strip(s)[0]) && !IsSpace(Strip(s)[|Strip(s)| - 1]))
    ensures Strip(s) == "" <==> Blank(s)
  {
    front := StripLeftDropsBlank(s);
    back := StripRightDropsBlank(StripLeft(s));
    var kept := Strip(s);
    assert s == front + kept + back;
    if kept != "" {
      assert kept[0] == StripLeft(s)[0];
      assert s[|front|] == kept[0];
    }
  }

  // What the column keeps is a beginning of the text, all of it when it fits.
  lemma TruncateKeepsBeginning(s: string)
    ensures Truncate(s) <= s && |Truncate(s)| <= 200 && (|s| <= 200 ==> Truncate(s) == s)
    ensures |s| > 200 ==> |Truncate(s)| == 200
  {
  }
}
