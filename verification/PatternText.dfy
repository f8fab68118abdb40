/** How patterns are written (section 5.4.1 of the reference manual), and that the matcher reads them so. */
module PatternText {
  import opened Wrappers
  import opened PatternSpec
  import opened Matcher

  // ----- the text of a pattern -----

  /** The characters that do not stand for themselves. */
  predicate IsMagic(c: char) {
    c in "^$()%.[]*+-?"
  }

  function MemberText(m: Member): (t: string)
    ensures |t| > 0
  {
    match m
    case One(c) => [c]
    case Range(lo, hi) => [lo, '-', hi]
    case ClassOf(cl) => ['%', cl]
  }

  function MembersText(members: seq<Member>): string {
    if members == [] then "" else MemberText(members[0]) + MembersText(members[1..])
  }

  function SetText(negated: bool, members: seq<Member>): string {
    "[" + ((if negated then "^" else "") + (MembersText(members) + "]"))
  }

  function ClassText(k: Class): (t: string)
    ensures |t| > 0
  {
    match k
    case Any => "."
    case Escaped(cl) => ['%', cl]
    case Literal(c) => [c]
    case Set(negated, members) => SetText(negated, members)
  }

  function SuffixText(rep: Repeat): string {
    match rep
    case Once => ""
    case Optional => "?"
    case Greedy => "*"
    case AtLeastOnce => "+"
    case Lazy => "-"
  }

  function ItemText(item: Item): string {
    match item
    case Chars(k, rep) => ClassText(k) + SuffixText(rep)
    case OpenCapture => "("
    case PositionCapture => "()"
    case CloseCapture => ")"
    case BackReference(digit) => ['%', digit]
    case Balanced(open, close) => ['%', 'b', open, close]
    case Frontier(k) => "%f" + ClassText(k)
    case AtEnd => "$"
    case Malformed(_) => ""
  }

  function Text(items: seq<Item>): string {
    if items == [] then "" else ItemText(items[0]) + Text(items[1..])
  }

  // ----- the patterns that can be written -----

  /** A character of a set is not an escape and does not close the set. */
  predicate IsPlain(c: char) {
    c != '%' && c != ']'
  }

  predicate MemberOk(m: Member) {
    match m
    case One(c) => IsPlain(c)
    case Range(lo, hi) => IsPlain(lo) && IsPlain(hi)
    case ClassOf(_) => true
  }

  /** A hyphen between two characters makes a range: behind a single character it may only be the last one. */
  predicate MembersOk(members: seq<Member>) {
    members != [] ==>
      && MemberOk(members[0]) && MembersOk(members[1..])
      && (members[0].One? && |members| > 1 && MemberText(members[1])[0] == '-' ==> members[1..] == [One('-')])
  }

  predicate SetOk(negated: bool, members: seq<Member>) {
    members != [] && MembersOk(members) && (!negated ==> MemberText(members[0])[0] != '^')
  }

  predicate ClassOk(k: Class) {
    match k
    case Any => true
    case Escaped(cl) => cl != 'b' && cl != 'f' && !('0' <= cl <= '9')
    case Literal(c) => !IsMagic(c)
    case Set(negated, members) => SetOk(negated, members)
  }

  /** An item, and what is behind it: `()` is a position capture, and `$` an anchor at the end only. */
  predicate ItemOk(item: Item, rest: seq<Item>) {
    match item
    case Chars(k, _) => ClassOk(k)
    case OpenCapture => rest == [] || rest[0] != CloseCapture
    case BackReference(digit) => '0' <= digit <= '9'
    case Frontier(k) => k.Set? && ClassOk(k)
    case AtEnd => rest == []
    case Malformed(_) => false
    case _ => true
  }

  predicate WellFormed(items: seq<Item>) {
    items == [] || (ItemOk(items[0], items[1..]) && WellFormed(items[1..]))
  }

  // ----- what is written is read -----

  /** The text t stands in pat at p. */
  predicate Has(pat: string, p: nat, t: string) {
    p + |t| <= |pat| && pat[p..p+|t|] == t
  }

  lemma HasSplit(pat: string, p: nat, t: string, u: string)
    ensures Has(pat, p, t + u) <==> Has(pat, p, t) && Has(pat, p + |t|, u)
  {
    if p + |t| + |u| <= |pat| {
      assert pat[p..p+|t|+|u|] == pat[p..p+|t|] + pat[p+|t|..p+|t|+|u|];
      if Has(pat, p, t + u) {
        assert pat[p..p+|t|] == (t + u)[..|t|] == t;
        assert pat[p+|t|..p+|t|+|u|] == (t + u)[|t|..] == u;
      }
    }
  }

  lemma HasAt(pat: string, p: nat, t: string, i: nat)
    requires Has(pat, p, t) && i < |t|
    ensures p + i < |pat| && pat[p+i] == At(pat, p + i) == t[i]
  {
    assert pat[p..p+|t|][i] == t[i];
  }

  /** The closing bracket is found. */
  lemma {:induction false} SetEndFound(pat: string, q: nat, members: seq<Member>)
    requires q <= |pat| && members != [] && MembersOk(members) && Has(pat, q, MembersText(members) + "]")
    ensures SetEnd(pat, q) == Ok(q + |MembersText(members)| + 1)
    decreases |members|
  {
    hide SetEnd, MemberText, MemberOk, Has;
    var m, rest := members[0], members[1..];
    var t := MemberText(m);
    assert MembersText(members) + "]" == t + (MembersText(rest) + "]");
    HasSplit(pat, q, t, MembersText(rest) + "]");
    HasAt(pat, q + |t|, MembersText(rest) + "]", 0);
    MemberSkipped(pat, q, m);
    if rest != [] {
      NextStarts(rest);
      SetEndFound(pat, q + |t|, rest);
    }
  }

  lemma NextStarts(members: seq<Member>)
    requires members != [] && MembersOk(members)
    ensures (MembersText(members) + "]")[0] != ']'
  {
  }

  /** From a member on, the end of the set is the end of the text, or it is looked for behind the member. */
  lemma MemberSkipped(pat: string, q: nat, m: Member)
    requires MemberOk(m) && Has(pat, q, MemberText(m))
    ensures q + |MemberText(m)| <= |pat|
    ensures var q' := q + |MemberText(m)|;
            SetEnd(pat, q) == if At(pat, q') == ']' then Ok(q' + 1) else SetEnd(pat, q')
  {
    var t := MemberText(m);
    HasAt(pat, q, t, 0);
    if |t| > 1 { HasAt(pat, q, t, 1); }
    if |t| > 2 {
      HasAt(pat, q, t, 2);
      assert SetEnd(pat, q) == SetEnd(pat, q + 1);
      assert SetEnd(pat, q + 1) == SetEnd(pat, q + 2);
    }
  }

  /** The members are read one by one. */
  lemma {:induction false} MembersRead(pat: string, q: nat, members: seq<Member>)
    requires MembersOk(members) && Has(pat, q, MembersText(members) + "]")
    ensures q + |MembersText(members)| < |pat|
    ensures Members(pat, q, q + |MembersText(members)|) == members
    decreases |members|
  {
    hide Members, MemberText, MemberOk;
    HasSplit(pat, q, MembersText(members), "]");
    if members == [] {
      assert Members(pat, q, q) == [] by { NoMembers(pat, q); }
    } else {
      var m, rest := members[0], members[1..];
      var t := MemberText(m);
      assert MembersText(members) + "]" == t + (MembersText(rest) + "]");
      HasSplit(pat, q, t, MembersText(rest) + "]");
      MembersRead(pat, q + |t|, rest);
      MemberRead(pat, q, m, rest);
      assert members == [m] + rest;
    }
  }

  lemma NoMembers(pat: string, q: nat)
    requires q <= |pat|
    ensures Members(pat, q, q) == []
  {
  }

  lemma MemberRead(pat: string, q: nat, m: Member, rest: seq<Member>)
    requires MembersOk([m] + rest) && Has(pat, q, MemberText(m))
    requires Has(pat, q + |MemberText(m)|, MembersText(rest) + "]")
    ensures var ec := q + |MemberText(m)| + |MembersText(rest)|;
            ec < |pat| && Members(pat, q, ec) == [m] + Members(pat, q + |MemberText(m)|, ec)
  {
    var t := MemberText(m);
    var u := MembersText(rest) + "]";
    assert ([m] + rest)[0] == m && ([m] + rest)[1..] == rest;
    HasAt(pat, q, t, 0);
    if |t| > 1 { HasAt(pat, q, t, 1); }
    if |t| > 2 { HasAt(pat, q, t, 2); }
    HasAt(pat, q + |t|, u, 0);
    if rest != [] && MemberText(rest[0])[0] == '-' && m.One? {
      assert rest == [One('-')];
      assert MembersText(rest) == "-" + MembersText([]);
    }
  }

  lemma SetRead(pat: string, p: nat, negated: bool, members: seq<Member>)
    requires SetOk(negated, members) && Has(pat, p, SetText(negated, members))
    ensures p + |SetText(negated, members)| <= |pat| && pat[p] == '['
    ensures var ep := p + |SetText(negated, members)|;
            PatternSpec.ClassEnd(pat, p) == Ok(ep) && SetAt(pat, p, ep - 1) == Set(negated, members)
  {
    hide Members, SetEnd, Has, MemberOk;
    var sign := if negated then "^" else "";
    var t := MembersText(members) + "]";
    HasSplit(pat, p, "[", sign + t);
    HasSplit(pat, p + 1, sign, t);
    HasAt(pat, p, "[", 0);
    HasAt(pat, p + 1, sign + t, 0);
    assert members == [members[0]] + members[1..];
    assert !negated ==> (sign + t)[0] == MemberText(members[0])[0];
    var q := p + 1 + |sign|;
    SetEndFound(pat, q, members);
    MembersRead(pat, q, members);
  }

  /** Behind a class there is a suffix, or no character that could be one. */
  lemma ClassRead(pat: string, p: nat, k: Class)
    requires ClassOk(k) && Has(pat, p, ClassText(k))
    ensures p + |ClassText(k)| <= |pat|
    ensures var ep := p + |ClassText(k)|;
            PatternSpec.ClassEnd(pat, p) == Ok(ep) && ClassAt(pat, p, ep) == k
    ensures ItemAt(pat, p) == CharsAt(pat, p)
  {
    hide Members, SetEnd, MembersText;
    HasAt(pat, p, ClassText(k), 0);
    match k {
      case Any =>
      case Escaped(cl) => HasAt(pat, p, ClassText(k), 1);
      case Literal(c) =>
      case Set(negated, members) => SetRead(pat, p, negated, members);
    }
  }

  /** What can stand behind a class without a suffix. */
  predicate NoSuffix(t: string) {
    t == "" || t[0] !in "?*+-"
  }

  lemma {:induction false} TextStarts(items: seq<Item>)
    requires WellFormed(items)
    ensures NoSuffix(Text(items))
    ensures items != [] && items[0] != CloseCapture ==> Text(items) != "" && Text(items)[0] != ')'
  {
    if items != [] {
      match items[0]
      case Chars(k, rep) => ClassStarts(k);
      case _ =>
    }
  }

  lemma ClassStarts(k: Class)
    requires ClassOk(k)
    ensures ClassText(k)[0] !in "?*+-)"
  {
  }

  /** An item is read, whatever is behind it. */
  lemma ItemRead(pat: string, p: nat, item: Item, rest: seq<Item>)
    requires WellFormed([item] + rest) && p <= |pat| && pat[p..] == ItemText(item) + Text(rest)
    ensures p < p + |ItemText(item)| <= |pat| && pat[p+|ItemText(item)|..] == Text(rest)
    ensures ItemAt(pat, p) == (item, p + |ItemText(item)|)
  {
    hide ClassText, Text, WellFormed, ClassOk, ItemAt, NoSuffix, Has;
    RestOk(item, rest);
    TextStarts(rest);
    ItemHas(pat, p, ItemText(item), Text(rest));
    match item {
      case Chars(k, rep) => CharsRead(pat, p, k, rep, rest);
      case Frontier(k) => FrontierRead(pat, p, k);
      case _ => OtherRead(pat, p, item, rest);
    }
  }

  lemma OtherRead(pat: string, p: nat, item: Item, rest: seq<Item>)
    requires ItemOk(item, rest) && !item.Chars? && !item.Frontier? && Has(pat, p, ItemText(item))
    requires At(pat, p + |ItemText(item)|) == (if Text(rest) == "" then '\0' else Text(rest)[0])
    requires rest != [] && rest[0] != CloseCapture ==> Text(rest) != "" && Text(rest)[0] != ')'
    requires rest == [] ==> p + |ItemText(item)| == |pat| && Text(rest) == ""
    ensures ItemAt(pat, p) == (item, p + |ItemText(item)|)
  {
    hide Text, ClassOk, CharsAt, Has;
    var t := ItemText(item);
    HasAt(pat, p, t, 0);
    if |t| > 1 { HasAt(pat, p, t, 1); }
    if |t| > 2 { HasAt(pat, p, t, 2); HasAt(pat, p, t, 3); }
  }

  lemma RestOk(item: Item, rest: seq<Item>)
    requires WellFormed([item] + rest)
    ensures ItemOk(item, rest) && WellFormed(rest) && (rest == [] ==> Text(rest) == "")
  {
    assert ([item] + rest)[0] == item && ([item] + rest)[1..] == rest;
  }

  /** The item stands at p, and the rest behind it up to the end. */
  lemma ItemHas(pat: string, p: nat, t: string, u: string)
    requires p <= |pat| && pat[p..] == t + u
    ensures Has(pat, p, t) && p + |t| + |u| == |pat| && pat[p+|t|..] == u
    ensures At(pat, p + |t|) == (if u == "" then '\0' else u[0])
  {
    assert |pat[p..]| == |t| + |u|;
    assert pat[p..p+|t|] == pat[p..][..|t|];
    assert pat[p+|t|..] == pat[p..][|t|..];
    if u != "" { assert pat[p+|t|] == pat[p..][|t|]; }
  }

  lemma CharsRead(pat: string, p: nat, k: Class, rep: Repeat, rest: seq<Item>)
    requires ClassOk(k) && NoSuffix(Text(rest)) && p <= |pat|
    requires pat[p..] == ClassText(k) + SuffixText(rep) + Text(rest)
    ensures ItemAt(pat, p) == (Chars(k, rep), p + |ClassText(k)| + |SuffixText(rep)|)
  {
    hide ClassText, Text, ClassOk, ItemAt, ClassAt;
    var t := ClassText(k);
    assert t + SuffixText(rep) + Text(rest) == t + (SuffixText(rep) + Text(rest));
    ItemHas(pat, p, t, SuffixText(rep) + Text(rest));
    ClassRead(pat, p, k);
  }

  lemma FrontierRead(pat: string, p: nat, k: Class)
    requires k.Set? && ClassOk(k) && Has(pat, p, "%f" + ClassText(k))
    ensures ItemAt(pat, p) == (Frontier(k), p + 2 + |ClassText(k)|)
  {
    hide Members, SetText, SetOk;
    HasSplit(pat, p, "%f", ClassText(k));
    HasAt(pat, p, "%f", 0);
    HasAt(pat, p, "%f", 1);
    SetRead(pat, p + 2, k.negated, k.members);
  }

  /** The headline: the matcher reads what was written, item by item. */
  lemma {:induction false} TextParsed(pat: string, p: nat, items: seq<Item>)
    requires WellFormed(items) && p <= |pat| && pat[p..] == Text(items)
    ensures Parse(pat, p) == items
    decreases |items|
  {
    hide ItemAt, ItemText;
    if items != [] {
      assert items == [items[0]] + items[1..];
      ItemRead(pat, p, items[0], items[1..]);
      TextParsed(pat, p + |ItemText(items[0])|, items[1..]);
    }
  }

  lemma TextOf(item: Item, rest: seq<Item>)
    ensures Text([item] + rest) == ItemText(item) + Text(rest)
    ensures WellFormed([item] + rest) <==> ItemOk(item, rest) && WellFormed(rest)
  {
    assert ([item] + rest)[0] == item && ([item] + rest)[1..] == rest;
  }

  /** A name, and what is assigned to it, up to the end. */
  lemma SamplePattern()
    ensures Parse("[%a_]*=(.-)$", 0)
         == [Chars(Set(false, [ClassOf('a'), One('_')]), Greedy), Chars(Literal('='), Once), OpenCapture,
             Chars(Any, Lazy), CloseCapture, AtEnd]
  {
    hide Text, WellFormed, Parse, ClassText, ItemOk;
    var k := Set(false, [ClassOf('a'), One('_')]);
    SampleSet(k);
    var rest := SampleRest();
    TextOf(Chars(k, Greedy), rest);
    var items := [Chars(k, Greedy)] + rest;
    var pat := Text(items);
    assert ItemOk(Chars(k, Greedy), rest) by { AnyRest(k, Greedy, rest); }
    assert pat == "[%a_]*=(.-)$" && pat[0..] == pat;
    TextParsed(pat, 0, items);
  }

  lemma AnyRest(k: Class, rep: Repeat, rest: seq<Item>)
    requires ClassOk(k)
    ensures ItemOk(Chars(k, rep), rest)
  {
  }

  lemma SampleRest() returns (rest: seq<Item>)
    ensures rest == [Chars(Literal('='), Once), OpenCapture, Chars(Any, Lazy), CloseCapture, AtEnd]
    ensures WellFormed(rest) && Text(rest) == "=(.-)$"
  {
    hide Text, WellFormed;
    var end, closed := [AtEnd] + [], [CloseCapture] + ([AtEnd] + []);
    var any := [Chars(Any, Lazy)] + closed;
    var open := [OpenCapture] + any;
    rest := [Chars(Literal('='), Once)] + open;
    NoText();
    TextOf(AtEnd, []);
    TextOf(CloseCapture, end);
    TextOf(Chars(Any, Lazy), closed);
    TextOf(OpenCapture, any);
    TextOf(Chars(Literal('='), Once), open);
    assert Text(any) == ".-)$";
  }

  lemma NoText()
    ensures Text([]) == "" && WellFormed([])
  {
  }

  lemma SampleSet(k: Class)
    requires k == Set(false, [ClassOf('a'), One('_')])
    ensures ClassOk(k) && ClassText(k) == "[%a_]"
  {
    assert k.members[1..] == [One('_')] && MembersText([One('_')]) == "_";
  }

  /** What is not a pattern. */
  lemma MalformedTexts()
    ensures Parse("%", 0) == [Malformed(EndsWithEscape)] && Parse("[a", 0) == [Malformed(MissingBracket)]
    ensures Parse("%bx", 0) == [Malformed(UnbalancedPattern)] && Parse("%fa", 0) == [Malformed(MissingFrontierSet)]
  {
    assert SetEnd("[a", 2) == Err(MissingBracket);
    assert PatternSpec.ClassEnd("[a", 0) == Err(MissingBracket);
  }

  // ----- the classes -----

  const UPPER := "ABCDEFGHIJKLMNOPQRSTUVWXYZ"
  const LOWER := "abcdefghijklmnopqrstuvwxyz"
  const DIGITS := "0123456789"

  /** A character is in an alphabet of consecutive characters exactly if it is between its ends. */
  lemma {:induction false} Consecutive(alphabet: string, c: char)
    requires alphabet != ""
    requires forall i :: 0 <= i < |alphabet| ==> alphabet[i] as int == alphabet[0] as int + i
    ensures c in alphabet <==> alphabet[0] <= c <= alphabet[|alphabet|-1]
  {
    if alphabet[0] <= c <= alphabet[|alphabet|-1] {
      assert alphabet[c as int - alphabet[0] as int] == c;
    }
  }

  lemma Letters(c: char)
    ensures MatchClass(c, 'u') <==> c in UPPER
    ensures MatchClass(c, 'l') <==> c in LOWER
    ensures MatchClass(c, 'd') <==> c in DIGITS
  {
    Consecutive(UPPER, c);
    Consecutive(LOWER, c);
    Consecutive(DIGITS, c);
  }

  /** The other classes, by the manual and the "C" locale. */
  lemma OtherClasses(c: char)
    ensures MatchClass(c, 'a') <==> MatchClass(c, 'u') || MatchClass(c, 'l')
    ensures MatchClass(c, 'w') <==> MatchClass(c, 'a') || MatchClass(c, 'd')
    ensures MatchClass(c, 'x') <==> MatchClass(c, 'd') || c in "ABCDEF" || c in "abcdef"
    ensures MatchClass(c, 's') <==> c in " \t\n\r" || c as int == 11 || c as int == 12
    ensures MatchClass(c, 'c') <==> c as int < 32 || c as int == 127
    ensures MatchClass(c, 'z') <==> c as int == 0
  {
  }

  lemma Punctuation(c: char)
    ensures MatchClass(c, 'p') <==> c in "!\"#$%&'()*+,-./" || c in ":;<=>?@" || c in "[\\]^_`" || c in "{|}~"
  {
    Consecutive("!\"#$%&'()*+,-./", c);
    Consecutive(":;<=>?@", c);
    Consecutive("[\\]^_`", c);
    Consecutive("{|}~", c);
  }

  /** An upper-case letter stands for the complement. */
  lemma Complements(c: char)
    ensures MatchClass(c, 'A') == !MatchClass(c, 'a') && MatchClass(c, 'C') == !MatchClass(c, 'c')
    ensures MatchClass(c, 'D') == !MatchClass(c, 'd') && MatchClass(c, 'L') == !MatchClass(c, 'l')
    ensures MatchClass(c, 'P') == !MatchClass(c, 'p') && MatchClass(c, 'S') == !MatchClass(c, 's')
    ensures MatchClass(c, 'U') == !MatchClass(c, 'u') && MatchClass(c, 'W') == !MatchClass(c, 'w')
    ensures MatchClass(c, 'X') == !MatchClass(c, 'x') && MatchClass(c, 'Z') == !MatchClass(c, 'z')
  {
  }

  /** Any other character behind an escape stands for itself. */
  lemma EscapedSelf(c: char, cl: char)
    requires cl !in "acdlpsuwxzACDLPSUWXZ"
    ensures MatchClass(c, cl) <==> c == cl
  {
    assert forall x :: x in "acdlpsuwxz" ==> ToLower(cl) != x;
  }

  /** The set of the characters of a text. */
  function Ones(chars: string): seq<Member> {
    if chars == "" then [] else [One(chars[0])] + Ones(chars[1..])
  }

  lemma {:induction false} SetOfOnes(c: char, chars: string)
    ensures AnyMember(c, Ones(chars)) <==> c in chars
  {
    if chars != "" {
      AnyMemberCons(c, One(chars[0]), Ones(chars[1..]));
      SetOfOnes(c, chars[1..]);
    }
  }

  /** A set is the union of its parts. */
  lemma {:induction false} SetUnion(c: char, a: seq<Member>, b: seq<Member>)
    ensures AnyMember(c, a + b) <==> AnyMember(c, a) || AnyMember(c, b)
  {
    if a == [] {
      assert a + b == b;
    } else {
      assert a == [a[0]] + a[1..] && a + b == [a[0]] + (a[1..] + b);
      AnyMemberCons(c, a[0], a[1..]);
      AnyMemberCons(c, a[0], a[1..] + b);
      SetUnion(c, a[1..], b);
    }
  }

  /** A range is the set of the characters from its first to its last one; a class may be a part of a set. */
  lemma SetParts(c: char, alphabet: string, cl: char)
    requires alphabet != "" && forall i :: 0 <= i < |alphabet| ==> alphabet[i] as int == alphabet[0] as int + i
    ensures AnyMember(c, [Range(alphabet[0], alphabet[|alphabet|-1])]) <==> c in alphabet
    ensures AnyMember(c, [ClassOf(cl)]) <==> MatchClass(c, cl)
  {
    Consecutive(alphabet, c);
    var range, class_ := Range(alphabet[0], alphabet[|alphabet|-1]), ClassOf(cl);
    assert [range][0] == range && [class_][0] == class_;
  }

  /** What a class stands for. */
  lemma Classes(c: char, x: char, negated: bool, members: seq<Member>)
    ensures InClass(c, Any) && (InClass(c, Literal(x)) <==> c == x) && (InClass(c, Escaped(x)) <==> MatchClass(c, x))
    ensures InClass(c, Set(negated, members)) <==> if negated then !AnyMember(c, members) else AnyMember(c, members)
  {
    hide MatchClass, InMember;
  }

  // ----- what the suffixes mean -----

  /** The numbers of characters that a class with this suffix may take. */
  predicate Takes(suffix: char, n: int) {
    match suffix
    case '?' => n == 0 || n == 1
    case '+' => n > 0
    case _ => n >= 0
  }

  /** The numbers of characters that a class with a suffix for longer runs may take are those from one to another, if
      there are any; the alternatives are tried from the greatest on. */
  lemma LongestFirst(k: Class, rep: Repeat, src: string, s: nat, caps: seq<Cap>) returns (lo: nat, n: nat)
    requires CapsOk(src, caps, s) && rep in {Optional, Greedy, AtLeastOnce}
    ensures CapsOk(src, caps, lo) && lo + n <= |src|
    ensures var r := Alternatives(Chars(k, rep), src, s, caps);
            || r == Ok([])
            || (r == Ok(Downwards(lo, n, caps))
                && forall t: nat :: InRun(k, rep, src, s, t) <==> lo <= t <= lo + n)
  {
    hide InClass, Downwards, Covers;
    var run := RunLength(src, s, k);
    forall t: nat ensures Covers(src, s, t, k) <==> s <= t <= s + run { RunIsLongest(src, s, k, t); }
    match rep {
      case Optional => lo, n := s, if run > 0 then 1 else 0;
      case Greedy => lo, n := s, run;
      case AtLeastOnce =>
        if run > 0 { lo, n := s + 1, run - 1; } else { lo, n := s, 0; }
    }
    if Alternatives(Chars(k, rep), src, s, caps) != Ok([]) {
      forall t: nat ensures InRun(k, rep, src, s, t) <==> lo <= t <= lo + n {
        assert Covers(src, s, t, k) <==> s <= t <= s + run;
      }
    }
  }

  /** The class and its suffix may take the characters from s up to t. */
  ghost predicate InRun(k: Class, rep: Repeat, src: string, s: nat, t: nat)
    requires rep != Once
  {
    Covers(src, s, t, k) && Takes(SuffixText(rep)[0], t - s)
  }

  /** The first success among alternatives from the longest on. */
  lemma FirstDownwards(rest: seq<Item>, src: string, lo: nat, n: nat, caps: seq<Cap>, a: Alt) returns (mid: nat)
    requires CapsOk(src, caps, lo) && lo + n <= |src| && AltsOk(src, Downwards(lo, n, caps))
    requires First(DenAll(rest, src, Downwards(lo, n, caps))) == Found(a)
    ensures lo <= mid <= lo + n && CapsOk(src, caps, mid) && First(Den(rest, src, mid, caps)) == Found(a)
    ensures forall t, end :: mid < t <= lo + n ==> !Matches(rest, src, t, caps, end)
  {
    hide Den, DenAll, First, Matches, Downwards;
    mid := lo + n;
    while First(Den(rest, src, mid, caps)).NotFound?
      invariant lo <= mid <= lo + n && AltsOk(src, Downwards(lo, mid - lo, caps))
      invariant First(DenAll(rest, src, Downwards(lo, mid - lo, caps))) == Found(a)
      invariant forall t, end :: mid < t <= lo + n ==> !Matches(rest, src, t, caps, end)
      decreases mid
    {
      DownwardsStep(rest, src, lo, mid - lo, caps);
      FirstSound(rest, src, mid, caps);
      mid := mid - 1;
    }
    DownwardsStep(rest, src, lo, mid - lo, caps);
  }

  /** `?`, `*` and `+` take the longest run that the suffix allows and behind which the rest of the text matches. */
  lemma LongestRun(k: Class, rep: Repeat, rest: seq<Item>, src: string, s: nat, caps: seq<Cap>, a: Alt)
    returns (mid: nat)
    requires WellFormed([Chars(k, rep)] + rest) && rep in {Optional, Greedy, AtLeastOnce} && CapsOk(src, caps, s)
    requires var pat := ClassText(k) + SuffixText(rep) + Text(rest);
             First(Den(Parse(pat, 0), src, s, caps)) == Found(a)
    ensures InRun(k, rep, src, s, mid) && CapsOk(src, caps, mid)
    ensures First(Den(Parse(Text(rest), 0), src, mid, caps)) == Found(a)
    ensures forall t: nat, end :: mid < t && InRun(k, rep, src, s, t) ==>
              !Matches(Parse(Text(rest), 0), src, t, caps, end)
  {
    hide Den, DenAll, First, Matches, Parse, Alternatives, Downwards, ClassText, SuffixText, Text, InRun;
    SuffixParsed(k, rep, rest);
    var lo, n := LongestFirst(k, rep, src, s, caps);
    NoChoice([Chars(k, rep)] + rest, src, s, caps);
    Choices([Chars(k, rep)] + rest, src, s, caps, Downwards(lo, n, caps));
    assert ([Chars(k, rep)] + rest)[1..] == rest;
    mid := FirstDownwards(rest, src, lo, n, caps, a);
  }

  /** `-` takes the shortest run behind which the rest of the text matches. */
  lemma ShortestRun(k: Class, rest: seq<Item>, src: string, s: nat, caps: seq<Cap>, a: Alt) returns (mid: nat)
    requires WellFormed([Chars(k, Lazy)] + rest) && CapsOk(src, caps, s)
    requires var pat := ClassText(k) + "-" + Text(rest); First(Den(Parse(pat, 0), src, s, caps)) == Found(a)
    ensures Covers(src, s, mid, k) && First(Den(Parse(Text(rest), 0), src, mid, caps)) == Found(a)
    ensures forall t: nat, end :: s <= t < mid ==> !Matches(Parse(Text(rest), 0), src, t, caps, end)
  {
    hide Den, First, Matches, Parse, ClassText, Text;
    SuffixParsed(k, Lazy, rest);
    mid := LazyTakesShortest(rest, src, s, k, caps, a);
  }

  lemma SuffixParsed(k: Class, rep: Repeat, rest: seq<Item>)
    requires WellFormed([Chars(k, rep)] + rest)
    ensures Parse(ClassText(k) + SuffixText(rep) + Text(rest), 0) == [Chars(k, rep)] + rest
    ensures Parse(Text(rest), 0) == rest
  {
    hide Parse, ClassText, SuffixText;
    var items := [Chars(k, rep)] + rest;
    RestOk(Chars(k, rep), rest);
    assert items[0] == Chars(k, rep) && items[1..] == rest;
    assert Text(items)[0..] == Text(items) && Text(rest)[0..] == Text(rest);
    TextParsed(Text(items), 0, items);
    TextParsed(Text(rest), 0, rest);
  }
}
