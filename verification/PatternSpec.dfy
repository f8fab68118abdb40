/** Lua patterns (section 5.4.1 of the reference manual, lstrlib.c): their syntax, and what they match.

    A pattern is read as a list of items.  The meaning of an item is the list of its alternatives, in
    the order in which they are to be tried; the meaning of a pattern is the list of all its successes,
    in order, up to the first error.  Nothing here backtracks or changes state. */
module PatternSpec {
  import opened Wrappers

  const L_ESC := '%'
  const LUA_MAXCAPTURES := 32
  const CAP_UNFINISHED := -1
  const CAP_POSITION := -2

  datatype Error =
    | EndsWithEscape
    | MissingBracket        // "malformed pattern (missing ']')"
    | UnbalancedPattern
    | MissingFrontierSet
    | TooManyCaptures
    | InvalidCaptureIndex
    | InvalidPatternCapture

  datatype Cap = Cap(init: int, len: int)

  // ----- characters -----

  /** The character at i of a C string: its end reads as zero. */
  function At(s: string, i: int): char {
    if 0 <= i < |s| then s[i] else '\0'
  }

  predicate IsUpper(c: char) { 'A' <= c <= 'Z' }
  predicate IsLower(c: char) { 'a' <= c <= 'z' }
  predicate IsAlpha(c: char) { IsUpper(c) || IsLower(c) }
  predicate IsDigit(c: char) { '0' <= c <= '9' }
  predicate IsAlnum(c: char) { IsAlpha(c) || IsDigit(c) }
  predicate IsCntrl(c: char) { c < ' ' || c as int == 127 }
  predicate IsPunct(c: char) { '!' <= c <= '~' && !IsAlnum(c) }
  predicate IsSpace(c: char) { c == ' ' || 9 <= c as int <= 13 }
  predicate IsXDigit(c: char) { IsDigit(c) || 'A' <= c <= 'F' || 'a' <= c <= 'f' }

  function ToLower(c: char): (r: char) {
    if IsUpper(c) then (c as int + 32) as char else c
  }

  /** match_class: the letter `cl` behind an escape stands for a class of the "C" locale, an upper-case
      letter for its complement; any other character stands for itself. */
  predicate MatchClass(c: char, cl: char) {
    match ToLower(cl)
    case 'a' => IsAlpha(c) == IsLower(cl)
    case 'c' => IsCntrl(c) == IsLower(cl)
    case 'd' => IsDigit(c) == IsLower(cl)
    case 'l' => IsLower(c) == IsLower(cl)
    case 'p' => IsPunct(c) == IsLower(cl)
    case 's' => IsSpace(c) == IsLower(cl)
    case 'u' => IsUpper(c) == IsLower(cl)
    case 'w' => IsAlnum(c) == IsLower(cl)
    case 'x' => IsXDigit(c) == IsLower(cl)
    case 'z' => (c == '\0') == IsLower(cl)
    case _ => cl == c
  }

  // ----- syntax -----

  datatype Member = One(c: char) | Range(lo: char, hi: char) | ClassOf(cl: char)

  datatype Class = Any | Escaped(cl: char) | Literal(c: char) | Set(negated: bool, members: seq<Member>)

  datatype Repeat = Once | Optional | Greedy | AtLeastOnce | Lazy

  datatype Item =
    | Chars(class_: Class, rep: Repeat)
    | OpenCapture
    | PositionCapture
    | CloseCapture
    | BackReference(digit: char)
    | Balanced(open: char, close: char)
    | Frontier(set_: Class)
    | AtEnd
    | Malformed(error: Error)

  predicate InMember(c: char, m: Member) {
    match m
    case One(x) => x == c
    case Range(lo, hi) => lo <= c <= hi
    case ClassOf(cl) => MatchClass(c, cl)
  }

  predicate InClass(c: char, k: Class) {
    match k
    case Any => true
    case Escaped(cl) => MatchClass(c, cl)
    case Literal(x) => x == c
    case Set(negated, members) => (exists i | 0 <= i < |members| :: InMember(c, members[i])) != negated
  }

  /** The end of a set, from inside it: its first character is a member even if it is `]`. */
  function SetEnd(pat: string, q: nat): (r: Result<nat, Error>)
    requires q <= |pat|
    ensures r.Ok? ==> q + 1 < r.value <= |pat|
    decreases |pat| - q
  {
    if q == |pat| then Err(MissingBracket)
    else
      var q' := if pat[q] == L_ESC && q + 1 < |pat| then q + 2 else q + 1;
      if At(pat, q') == ']' then Ok(q' + 1) else SetEnd(pat, q')
  }

  /** classend: the position behind the single-character class at p. */
  function ClassEnd(pat: string, p: nat): (r: Result<nat, Error>)
    requires p < |pat|
    ensures r.Ok? ==> p < r.value <= |pat|
  {
    if pat[p] == L_ESC then
      if p + 1 == |pat| then Err(EndsWithEscape) else Ok(p + 2)
    else if pat[p] == '[' then
      SetEnd(pat, if At(pat, p + 1) == '^' then p + 2 else p + 1)
    else Ok(p + 1)
  }

  /** The members of a set that lie between i and its closing bracket at ec. */
  function Members(pat: string, i: nat, ec: nat): seq<Member>
    requires ec <= |pat|
    decreases ec - i
  {
    if i >= ec then []
    else if pat[i] == L_ESC then [ClassOf(At(pat, i + 1))] + Members(pat, i + 2, ec)
    else if At(pat, i + 1) == '-' && i + 2 < ec then [Range(pat[i], pat[i+2])] + Members(pat, i + 3, ec)
    else [One(pat[i])] + Members(pat, i + 1, ec)
  }

  function SetAt(pat: string, p: nat, ec: nat): Class
    requires ec <= |pat|
  {
    var negated := At(pat, p + 1) == '^';
    Set(negated, Members(pat, if negated then p + 2 else p + 1, ec))
  }

  /** The single-character class that starts at p and ends in front of ep. */
  function ClassAt(pat: string, p: nat, ep: nat): Class
    requires p < ep <= |pat|
  {
    match pat[p]
    case '.' => Any
    case '%' => Escaped(At(pat, p + 1))
    case '[' => SetAt(pat, p, ep - 1)
    case c => Literal(c)
  }

  function Suffix(c: char): Repeat {
    match c
    case '?' => Optional
    case '*' => Greedy
    case '+' => AtLeastOnce
    case '-' => Lazy
    case _ => Once
  }

  /** A class and the suffix behind it. */
  function CharsAt(pat: string, p: nat): (r: (Item, nat))
    requires p < |pat|
    ensures p < r.1 <= |pat|
  {
    match ClassEnd(pat, p)
    case Err(e) => (Malformed(e), |pat|)
    case Ok(ep) =>
      var rep := Suffix(At(pat, ep));
      (Chars(ClassAt(pat, p, ep), rep), if rep == Once then ep else ep + 1)
  }

  /** The item that starts at p, and the position behind it. */
  function ItemAt(pat: string, p: nat): (r: (Item, nat))
    requires p < |pat|
    ensures p < r.1 <= |pat|
  {
    var next := At(pat, p + 1);
    match pat[p]
    case '(' => if next == ')' then (PositionCapture, p + 2) else (OpenCapture, p + 1)
    case ')' => (CloseCapture, p + 1)
    case '%' =>
      if next == 'b' then
        if p + 3 >= |pat| then (Malformed(UnbalancedPattern), |pat|)
        else (Balanced(pat[p+2], pat[p+3]), p + 4)
      else if next == 'f' then
        if At(pat, p + 2) != '[' then (Malformed(MissingFrontierSet), |pat|)
        else
          (match ClassEnd(pat, p + 2)
           case Err(e) => (Malformed(e), |pat|)
           case Ok(ep) => (Frontier(SetAt(pat, p + 2, ep - 1)), ep))
      else if IsDigit(next) then (BackReference(next), p + 2)
      else CharsAt(pat, p)
    case '$' => if p + 1 == |pat| then (AtEnd, p + 1) else CharsAt(pat, p)
    case _ => CharsAt(pat, p)
  }

  function Parse(pat: string, p: nat): seq<Item>
    requires p <= |pat|
    decreases |pat| - p
  {
    if p == |pat| then []
    else
      var (item, next) := ItemAt(pat, p);
      [item] + Parse(pat, next)
  }

  // ----- meaning -----

  /** A way to go on: from s, with these captures. */
  datatype Alt = Alt(s: nat, caps: seq<Cap>)

  /** The length of the longest run of characters of class k from s on. */
  function RunLength(src: string, s: nat, k: Class): (n: nat)
    requires s <= |src|
    ensures s + n <= |src|
    decreases |src| - s
  {
    if s < |src| && InClass(src[s], k) then 1 + RunLength(src, s + 1, k) else 0
  }

  /** s + n, ..., s + 1, s */
  function Downwards(s: nat, n: nat, caps: seq<Cap>): seq<Alt> {
    if n == 0 then [Alt(s, caps)] else [Alt(s + n, caps)] + Downwards(s, n - 1, caps)
  }

  /** s, s + 1, ..., s + n */
  function Upwards(s: nat, n: nat, caps: seq<Cap>): seq<Alt>
    decreases n
  {
    if n == 0 then [Alt(s, caps)] else [Alt(s, caps)] + Upwards(s + 1, n - 1, caps)
  }

  /** The capture that the next `)` closes: the last one that is not finished. */
  function LastOpen(caps: seq<Cap>): (l: int)
    ensures -1 <= l < |caps| && (l >= 0 ==> caps[l].len == CAP_UNFINISHED)
    ensures forall k :: l < k < |caps| ==> caps[k].len != CAP_UNFINISHED
  {
    if caps == [] then -1
    else if caps[|caps|-1].len == CAP_UNFINISHED then |caps| - 1
    else LastOpen(caps[..|caps|-1])
  }

  /** The position behind the balanced string whose opening character is in front of i; `depth` counts
      the openings that are not closed yet. */
  function BalanceEnd(src: string, i: nat, depth: nat, open: char, close: char): (r: Option<nat>)
    requires i <= |src| && depth > 0
    ensures r.Some? ==> i < r.value <= |src|
    decreases |src| - i
  {
    if i == |src| then None
    else if src[i] == close then
      if depth == 1 then Some(i + 1) else BalanceEnd(src, i + 1, depth - 1, open, close)
    else BalanceEnd(src, i + 1, if src[i] == open then depth + 1 else depth, open, close)
  }

  /** Does the text t stand in src at s? */
  predicate Stands(src: string, s: nat, t: string)
    requires s <= |src|
  {
    |t| <= |src| - s && src[s..s+|t|] == t
  }

  /** A finished capture of the source string lies inside it. */
  predicate CapOk(src: string, c: Cap) {
    0 <= c.init <= |src| && (c.len >= 0 || c.len == CAP_UNFINISHED || c.len == CAP_POSITION) && c.init + c.len <= |src|
  }

  predicate CapsOk(src: string, caps: seq<Cap>, s: nat) {
    s <= |src| && forall i {:trigger caps[i]} :: 0 <= i < |caps| ==> CapOk(src, caps[i]) && caps[i].init <= s
  }

  predicate AltsOk(src: string, alts: seq<Alt>) {
    forall i {:trigger alts[i]} :: 0 <= i < |alts| ==> CapsOk(src, alts[i].caps, alts[i].s)
  }

  /** The alternatives of one item at s, in the order in which they are tried. */
  function Alternatives(item: Item, src: string, s: nat, caps: seq<Cap>): (r: Result<seq<Alt>, Error>)
    requires CapsOk(src, caps, s)
  {
    match item
    case Chars(k, rep) =>
      var n := RunLength(src, s, k);
      Ok(match rep
         case Once => if n > 0 then [Alt(s + 1, caps)] else []
         case Optional => Downwards(s, if n > 0 then 1 else 0, caps)
         case Greedy => Downwards(s, n, caps)
         case AtLeastOnce => if n > 0 then Downwards(s + 1, n - 1, caps) else []
         case Lazy => Upwards(s, n, caps))
    case OpenCapture =>
      if |caps| >= LUA_MAXCAPTURES then Err(TooManyCaptures) else Ok([Alt(s, caps + [Cap(s, CAP_UNFINISHED)])])
    case PositionCapture =>
      if |caps| >= LUA_MAXCAPTURES then Err(TooManyCaptures) else Ok([Alt(s, caps + [Cap(s, CAP_POSITION)])])
    case CloseCapture =>
      var l := LastOpen(caps);
      if l < 0 then Err(InvalidPatternCapture) else Ok([Alt(s, caps[l := Cap(caps[l].init, s - caps[l].init)])])
    case BackReference(digit) =>
      var l := digit as int - '1' as int;
      if !(0 <= l < |caps|) || caps[l].len == CAP_UNFINISHED then Err(InvalidCaptureIndex)
      else if caps[l].len == CAP_POSITION then Ok([])
      else
        var t := src[caps[l].init..caps[l].init + caps[l].len];
        Ok(if Stands(src, s, t) then [Alt(s + |t|, caps)] else [])
    case Balanced(open, close) =>
      if At(src, s) != open || s == |src| then Ok([])
      else
        (match BalanceEnd(src, s + 1, 1, open, close)
         case None => Ok([])
         case Some(e) => Ok([Alt(e, caps)]))
    case Frontier(k) =>
      Ok(if !InClass(At(src, s - 1), k) && InClass(At(src, s), k) then [Alt(s, caps)] else [])
    case AtEnd => Ok(if s == |src| then [Alt(s, caps)] else [])
    case Malformed(e) => Err(e)
  }

  /** All successes in order; with an error, those in front of it. */
  datatype Results = Results(found: seq<Alt>, error: Option<Error>)

  function Append(a: Results, b: Results): Results {
    if a.error.Some? then a else Results(a.found + b.found, b.error)
  }

  lemma AlternativesOk(item: Item, src: string, s: nat, caps: seq<Cap>)
    requires CapsOk(src, caps, s)
    ensures var r := Alternatives(item, src, s, caps); r.Ok? ==> AltsOk(src, r.value)
  {
    match item {
      case Chars(k, rep) =>
        var n := RunLength(src, s, k);
        forall m: nat, a: nat | s <= a && a + m <= s + n
          ensures AltsOk(src, Downwards(a, m, caps)) && AltsOk(src, Upwards(a, m, caps))
        {
          StepsOk(src, a, m, caps);
        }
      case _ =>
    }
  }

  lemma {:induction false} StepsOk(src: string, s: nat, n: nat, caps: seq<Cap>)
    requires CapsOk(src, caps, s) && s + n <= |src|
    ensures AltsOk(src, Downwards(s, n, caps)) && AltsOk(src, Upwards(s, n, caps))
    decreases n
  {
    if n > 0 {
      StepsOk(src, s, n - 1, caps);
      StepsOk(src, s + 1, n - 1, caps);
    }
  }

  /** The successes of a list of items. */
  ghost function Den(items: seq<Item>, src: string, s: nat, caps: seq<Cap>): Results
    requires CapsOk(src, caps, s)
    decreases |items|, 0
  {
    if items == [] then Results([Alt(s, caps)], None)
    else
      AlternativesOk(items[0], src, s, caps);
      match Alternatives(items[0], src, s, caps)
      case Err(e) => Results([], Some(e))
      case Ok(alts) => DenAll(items[1..], src, alts)
  }

  /** The successes from the first alternative, then those from the second, and so on. */
  ghost function DenAll(items: seq<Item>, src: string, alts: seq<Alt>): Results
    requires AltsOk(src, alts)
    decreases |items|, |alts| + 1
  {
    if alts == [] then Results([], None)
    else Append(Den(items, src, alts[0].s, alts[0].caps), DenAll(items, src, alts[1..]))
  }

  /** What the matcher is to return. */
  datatype Outcome = Found(alt: Alt) | NotFound | Failed(error: Error)

  function First(r: Results): Outcome {
    if r.found != [] then Found(r.found[0])
    else if r.error.Some? then Failed(r.error.value)
    else NotFound
  }

  lemma FirstAppend(a: Results, b: Results)
    ensures First(Append(a, b)) == if First(a).NotFound? then First(b) else First(a)
  {
  }

  // ----- soundness and completeness -----

  /** All characters of src from s up to s' are in class k. */
  ghost predicate Covers(src: string, s: nat, s': nat, k: Class) {
    s <= s' <= |src| && forall i :: s <= i < s' ==> InClass(src[i], k)
  }

  /** The openings between i and j that are not closed there; closing wins if both characters are equal. */
  ghost function Depth(src: string, i: nat, j: nat, open: char, close: char): int
    requires i <= j <= |src|
    decreases j
  {
    if i == j then 0
    else Depth(src, i, j - 1, open, close) + (if src[j-1] == close then -1 else if src[j-1] == open then 1 else 0)
  }

  /** With `depth` openings in front of i, the last of them is closed for the first time in front of e. */
  ghost predicate ClosesFirstAt(src: string, i: nat, depth: nat, open: char, close: char, e: nat) {
    && i < e <= |src| && depth + Depth(src, i, e, open, close) == 0
    && forall j {:trigger Depth(src, i, j, open, close)} :: i <= j < e ==> depth + Depth(src, i, j, open, close) > 0
  }

  /** src[s..e] starts with `open` and ends where that opening is closed for the first time. */
  ghost predicate BalancedUpTo(src: string, s: nat, e: nat, open: char, close: char) {
    && s < e - 1 < |src| && src[s] == open
    && ClosesFirstAt(src, s + 1, 1, open, close, e)
  }

  ghost predicate AllowedLength(n: int, rep: Repeat) {
    match rep
    case Once => n == 1
    case Optional => n <= 1
    case AtLeastOnce => n >= 1
    case _ => true
  }

  /** Item by item, what the manual says that a pattern item matches: from s with captures `caps`, it may go
      on at a. */
  ghost predicate ItemMatches(item: Item, src: string, s: nat, caps: seq<Cap>, a: Alt)
    requires CapsOk(src, caps, s)
  {
    match item
    case Chars(k, rep) => a.caps == caps && Covers(src, s, a.s, k) && AllowedLength(a.s - s, rep)
    case OpenCapture => |caps| < LUA_MAXCAPTURES && a == Alt(s, caps + [Cap(s, CAP_UNFINISHED)])
    case PositionCapture => |caps| < LUA_MAXCAPTURES && a == Alt(s, caps + [Cap(s, CAP_POSITION)])
    case CloseCapture =>
      exists l | 0 <= l < |caps| ::
        && caps[l].len == CAP_UNFINISHED && (forall k :: l < k < |caps| ==> caps[k].len != CAP_UNFINISHED)
        && a == Alt(s, caps[l := Cap(caps[l].init, s - caps[l].init)])
    case BackReference(digit) =>
      var l := digit as int - '1' as int;
      && 0 <= l < |caps| && caps[l].len >= 0 && a.caps == caps && s <= a.s <= |src|
      && src[s..a.s] == src[caps[l].init..caps[l].init + caps[l].len]
    case Balanced(open, close) => a.caps == caps && BalancedUpTo(src, s, a.s, open, close)
    case Frontier(k) => a == Alt(s, caps) && !InClass(At(src, s - 1), k) && InClass(At(src, s), k)
    case AtEnd => a == Alt(s, caps) && s == |src|
    case Malformed(_) => false
  }

  /** A pattern matches if its items can be matched one behind the other. */
  ghost predicate Matches(items: seq<Item>, src: string, s: nat, caps: seq<Cap>, end: Alt)
    requires CapsOk(src, caps, s)
    decreases |items|
  {
    if items == [] then end == Alt(s, caps)
    else exists a: Alt :: ItemMatches(items[0], src, s, caps, a) && CapsOk(src, a.caps, a.s)
                          && Matches(items[1..], src, a.s, a.caps, end)
  }

  lemma {:induction false} RunIsLongest(src: string, s: nat, k: Class, s': nat)
    requires s <= |src|
    ensures Covers(src, s, s', k) <==> s <= s' <= s + RunLength(src, s, k)
    decreases |src| - s
  {
    if s < |src| && InClass(src[s], k) {
      RunIsLongest(src, s + 1, k, s');
    }
  }

  lemma {:induction false} DownwardsElems(s: nat, n: nat, caps: seq<Cap>, a: Alt)
    ensures a in Downwards(s, n, caps) <==> a.caps == caps && s <= a.s <= s + n
  {
    if n > 0 { DownwardsElems(s, n - 1, caps, a); }
  }

  lemma {:induction false} UpwardsElems(s: nat, n: nat, caps: seq<Cap>, a: Alt)
    ensures a in Upwards(s, n, caps) <==> a.caps == caps && s <= a.s <= s + n
    decreases n
  {
    if n > 0 { UpwardsElems(s + 1, n - 1, caps, a); }
  }

  lemma {:induction false} DepthSplit(src: string, i: nat, j: nat, open: char, close: char)
    requires i < j <= |src|
    ensures Depth(src, i, j, open, close)
         == (if src[i] == close then -1 else if src[i] == open then 1 else 0) + Depth(src, i + 1, j, open, close)
    decreases j
  {
    if i + 1 < j { DepthSplit(src, i, j - 1, open, close); }
  }

  /** BalanceEnd finds the first position where the depth reaches zero. */
  lemma {:induction false} BalanceEndIsFirst(src: string, i: nat, depth: nat, open: char, close: char, e: nat)
    requires i <= |src| && depth > 0
    ensures BalanceEnd(src, i, depth, open, close) == Some(e) <==> ClosesFirstAt(src, i, depth, open, close, e)
    decreases |src| - i
  {
    if i < |src| {
      var d := if src[i] == close then -1 else if src[i] == open then 1 else 0;
      forall j | i < j <= |src|
        ensures Depth(src, i, j, open, close) == d + Depth(src, i + 1, j, open, close)
      {
        DepthSplit(src, i, j, open, close);
      }
      assert Depth(src, i, i + 1, open, close) == d;
      if depth + d == 0 {
        assert e > i + 1 ==> !ClosesFirstAt(src, i, depth, open, close, e);
      } else {
        BalanceEndIsFirst(src, i + 1, depth + d, open, close, e);
        assert ClosesFirstAt(src, i, depth, open, close, e)
          <==> ClosesFirstAt(src, i + 1, depth + d, open, close, e) by {
          if ClosesFirstAt(src, i + 1, depth + d, open, close, e) {
            forall j | i <= j < e ensures depth + Depth(src, i, j, open, close) > 0 {
              assert j > i ==> depth + d + Depth(src, i + 1, j, open, close) > 0;
            }
          }
          if ClosesFirstAt(src, i, depth, open, close, e) {
            assert e != i + 1;
            var i' := i + 1;
            forall j | i' <= j < e ensures depth + d + Depth(src, i', j, open, close) > 0 {
              assert depth + Depth(src, i, j, open, close) > 0;
            }
          }
        }
      }
    }
  }

  /** The alternatives of an item are what it matches. */
  lemma AlternativesAreMatches(item: Item, src: string, s: nat, caps: seq<Cap>, a: Alt)
    requires CapsOk(src, caps, s)
    ensures var r := Alternatives(item, src, s, caps);
            && (r.Ok? ==> (a in r.value <==> ItemMatches(item, src, s, caps, a)))
            && (r.Err? ==> !ItemMatches(item, src, s, caps, a))
  {
    match item {
      case Chars(k, rep) =>
        var n := RunLength(src, s, k);
        RunIsLongest(src, s, k, a.s);
        DownwardsElems(s, n, caps, a);
        UpwardsElems(s, n, caps, a);
        DownwardsElems(s, 0, caps, a);
        DownwardsElems(s, 1, caps, a);
        if n > 0 { DownwardsElems(s + 1, n - 1, caps, a); }
      case CloseCapture =>
        var l := LastOpen(caps);
        if l >= 0 { assert caps[l].len == CAP_UNFINISHED; }
      case BackReference(digit) => BackReferenceMatches(digit, src, s, caps, a);
      case Balanced(open, close) =>
        if s < |src| { BalanceEndIsFirst(src, s + 1, 1, open, close, a.s); }
      case _ =>
    }
  }

  lemma BackReferenceMatches(digit: char, src: string, s: nat, caps: seq<Cap>, a: Alt)
    requires CapsOk(src, caps, s)
    ensures var r := Alternatives(BackReference(digit), src, s, caps);
            && (r.Ok? ==> (a in r.value <==> ItemMatches(BackReference(digit), src, s, caps, a)))
            && (r.Err? ==> !ItemMatches(BackReference(digit), src, s, caps, a))
  {
    var l := digit as int - '1' as int;
    if 0 <= l < |caps| && caps[l].len >= 0 {
      var t := src[caps[l].init..caps[l].init + caps[l].len];
      if s <= a.s <= |src| && src[s..a.s] == t { assert |src[s..a.s]| == |t|; }
    }
  }

  lemma {:induction false} DenAllFound(items: seq<Item>, src: string, alts: seq<Alt>, end: Alt)
    requires AltsOk(src, alts)
    requires forall i {:trigger alts[i]} :: 0 <= i < |alts| ==> Sound(items, src, alts[i], end)
    ensures var r := DenAll(items, src, alts);
            && (end in r.found ==>
                  exists a :: a in alts && CapsOk(src, a.caps, a.s) && Matches(items, src, a.s, a.caps, end))
            && (r.error.None? ==> forall a :: a in alts && Matches(items, src, a.s, a.caps, end) ==> end in r.found)
    decreases alts
  {
    if alts != [] {
      var d := Den(items, src, alts[0].s, alts[0].caps);
      DenAllFound(items, src, alts[1..], end);
      assert Sound(items, src, alts[0], end);
      assert alts == [alts[0]] + alts[1..];
    }
  }

  /** A success is a match; and if no error occurs, every match is a success. */
  ghost predicate Sound(items: seq<Item>, src: string, a: Alt, end: Alt)
    requires CapsOk(src, a.caps, a.s)
  {
    var r := Den(items, src, a.s, a.caps);
    && (end in r.found ==> Matches(items, src, a.s, a.caps, end))
    && (r.error.None? && Matches(items, src, a.s, a.caps, end) ==> end in r.found)
  }

  lemma {:induction false} DenSound(items: seq<Item>, src: string, s: nat, caps: seq<Cap>, end: Alt)
    requires CapsOk(src, caps, s)
    ensures Sound(items, src, Alt(s, caps), end)
    decreases |items|
  {
    if items != [] {
      AlternativesOk(items[0], src, s, caps);
      forall a ensures var r := Alternatives(items[0], src, s, caps);
                       && (r.Ok? ==> (a in r.value <==> ItemMatches(items[0], src, s, caps, a)))
                       && (r.Err? ==> !ItemMatches(items[0], src, s, caps, a))
      {
        AlternativesAreMatches(items[0], src, s, caps, a);
      }
      var r := Alternatives(items[0], src, s, caps);
      if r.Ok? {
        forall i | 0 <= i < |r.value|
          ensures Sound(items[1..], src, r.value[i], end)
        {
          DenSound(items[1..], src, r.value[i].s, r.value[i].caps, end);
        }
        DenAllFound(items[1..], src, r.value, end);
      }
    }
  }
}
