/** The backtracking pattern matcher (lstrlib.c): it keeps the captures in place and undoes them when it
    backtracks.  Every method is proved to return the first success of `PatternSpec`. */
module Matcher {
  import opened Wrappers
  import opened PatternSpec

  /** What a matching function returns: a pointer into the source, NULL, or it raises an error. */
  datatype Ptr = To(p: nat) | Null | Raise(error: Error)

  predicate AnyMember(c: char, members: seq<Member>) {
    exists i | 0 <= i < |members| :: InMember(c, members[i])
  }

  lemma AnyMemberCons(c: char, m: Member, rest: seq<Member>)
    ensures AnyMember(c, [m] + rest) <==> InMember(c, m) || AnyMember(c, rest)
  {
    if AnyMember(c, rest) {
      var i :| 0 <= i < |rest| && InMember(c, rest[i]);
      assert ([m] + rest)[i+1] == rest[i];
    }
    if InMember(c, m) { assert ([m] + rest)[0] == m; }
  }

  lemma NoMember(c: char, pat: string, i: nat, ec: nat)
    requires ec < |pat| && i >= ec
    ensures !AnyMember(c, Members(pat, i, ec))
  {
  }

  /** The first of the remaining members of a set. */
  lemma MemberStep(c: char, pat: string, i: nat, ec: nat)
    requires i < ec < |pat|
    ensures AnyMember(c, Members(pat, i, ec)) <==>
            if pat[i] == L_ESC then MatchClass(c, At(pat, i + 1)) || AnyMember(c, Members(pat, i + 2, ec))
            else if At(pat, i + 1) == '-' && i + 2 < ec then
              pat[i] <= c <= pat[i+2] || AnyMember(c, Members(pat, i + 3, ec))
            else pat[i] == c || AnyMember(c, Members(pat, i + 1, ec))
  {
    hide AnyMember;
    if pat[i] == L_ESC {
      AnyMemberCons(c, ClassOf(At(pat, i + 1)), Members(pat, i + 2, ec));
    } else if At(pat, i + 1) == '-' && i + 2 < ec {
      AnyMemberCons(c, Range(pat[i], pat[i+2]), Members(pat, i + 3, ec));
    } else {
      AnyMemberCons(c, One(pat[i]), Members(pat, i + 1, ec));
    }
  }

  /** What a set matches, by its members. */
  lemma BracketClass(c: char, pat: string, p: nat, ec: nat)
    requires ec < |pat|
    ensures var negated := At(pat, p + 1) == '^';
            var members := Members(pat, if negated then p + 2 else p + 1, ec);
            InClass(c, SetAt(pat, p, ec)) == (AnyMember(c, members) != negated)
  {
  }

  lemma ParseStep(pat: string, p: nat)
    requires p < |pat|
    ensures var (item, next) := ItemAt(pat, p);
            Parse(pat, p) != [] && Parse(pat, p)[0] == item && Parse(pat, p)[1..] == Parse(pat, next)
  {
  }

  /** An item without a choice. */
  lemma OnlyChoice(items: seq<Item>, src: string, s: nat, caps: seq<Cap>, a: Alt)
    requires items != [] && CapsOk(src, caps, s) && Alternatives(items[0], src, s, caps) == Ok([a])
    ensures CapsOk(src, a.caps, a.s)
    ensures First(Den(items, src, s, caps)) == First(Den(items[1..], src, a.s, a.caps))
  {
    AlternativesOk(items[0], src, s, caps);
    assert [a][0] == a && [a][1..] == [];
    FirstAppend(Den(items[1..], src, a.s, a.caps), DenAll(items[1..], src, []));
  }

  lemma TwoChoices(items: seq<Item>, src: string, s: nat, caps: seq<Cap>, a: Alt, b: Alt)
    requires items != [] && CapsOk(src, caps, s) && Alternatives(items[0], src, s, caps) == Ok([a, b])
    ensures CapsOk(src, a.caps, a.s) && CapsOk(src, b.caps, b.s)
    ensures var o := First(Den(items[1..], src, a.s, a.caps));
            First(Den(items, src, s, caps)) == if o.NotFound? then First(Den(items[1..], src, b.s, b.caps)) else o
  {
    AlternativesOk(items[0], src, s, caps);
    assert [a, b][0] == a && [a, b][1] == b && [a, b][1..] == [b];
    assert [b][0] == b && [b][1..] == [];
    FirstAppend(Den(items[1..], src, b.s, b.caps), DenAll(items[1..], src, []));
    FirstAppend(Den(items[1..], src, a.s, a.caps), DenAll(items[1..], src, [b]));
  }

  /** The first of the remaining alternatives of a greedy repetition. */
  lemma DownwardsStep(items: seq<Item>, src: string, s: nat, i: nat, caps: seq<Cap>)
    requires CapsOk(src, caps, s) && s + i <= |src|
    ensures AltsOk(src, Downwards(s, i, caps)) && (i > 0 ==> AltsOk(src, Downwards(s, i - 1, caps)))
    ensures First(DenAll(items, src, Downwards(s, i, caps)))
         == var o := First(Den(items, src, s + i, caps));
            if !o.NotFound? then o
            else if i == 0 then NotFound
            else First(DenAll(items, src, Downwards(s, i - 1, caps)))
  {
    StepsOk(src, s, i, caps);
    if i > 0 { StepsOk(src, s, i - 1, caps); }
    var alts := Downwards(s, i, caps);
    assert i > 0 ==> alts[1..] == Downwards(s, i - 1, caps);
    FirstAppend(Den(items, src, s + i, caps), DenAll(items, src, alts[1..]));
  }

  lemma InSource(src: string, caps: seq<Cap>, s: nat)
    requires CapsOk(src, caps, s)
    ensures s <= |src|
  {
  }

  lemma FirstNone()
    ensures forall items: seq<Item>, src: string {:trigger DenAll(items, src, [])} ::
              First(DenAll(items, src, [])) == NotFound
  {
  }

  /** The first of the remaining alternatives of a lazy repetition. */
  lemma UpwardsStep(items: seq<Item>, src: string, s: nat, k: Class, caps: seq<Cap>)
    requires CapsOk(src, caps, s)
    ensures AltsOk(src, Upwards(s, RunLength(src, s, k), caps))
    ensures var o := First(Den(items, src, s, caps)); var more := s < |src| && InClass(src[s], k);
            && (more ==> AltsOk(src, Upwards(s + 1, RunLength(src, s + 1, k), caps)))
            && First(DenAll(items, src, Upwards(s, RunLength(src, s, k), caps)))
            == if !o.NotFound? then o
               else if more then First(DenAll(items, src, Upwards(s + 1, RunLength(src, s + 1, k), caps)))
               else NotFound
  {
    hide RunLength, Den, First;
    InSource(src, caps, s);
    RunStart(src, s, k);
    var n := RunLength(src, s, k);
    StepsOk(src, s, n, caps);
    var alts := Upwards(s, n, caps);
    assert alts[0] == Alt(s, caps);
    if n > 0 {
      StepsOk(src, s + 1, n - 1, caps);
      assert alts[1..] == Upwards(s + 1, n - 1, caps);
    } else {
      assert alts[1..] == [];
      FirstNone();
    }
    FirstAppend(Den(items, src, s, caps), DenAll(items, src, alts[1..]));
  }

  lemma AtTheEnd(src: string, s: nat, caps: seq<Cap>)
    requires CapsOk(src, caps, s)
    ensures First(Den([], src, s, caps)) == Found(Alt(s, caps))
  {
  }

  lemma RunStart(src: string, s: nat, k: Class)
    requires s <= |src|
    ensures RunLength(src, s, k) > 0 <==> s < |src| && InClass(src[s], k)
    ensures RunLength(src, s, k) > 0 ==> RunLength(src, s, k) == 1 + RunLength(src, s + 1, k)
    ensures forall caps {:trigger Downwards(s, 1, caps)} :: Downwards(s, 1, caps) == [Alt(s + 1, caps), Alt(s, caps)]
    ensures forall caps {:trigger Downwards(s, 0, caps)} :: Downwards(s, 0, caps) == [Alt(s, caps)]
  {
  }

  lemma Choices(items: seq<Item>, src: string, s: nat, caps: seq<Cap>, alts: seq<Alt>)
    requires items != [] && CapsOk(src, caps, s) && Alternatives(items[0], src, s, caps) == Ok(alts)
    ensures AltsOk(src, alts) && Den(items, src, s, caps) == DenAll(items[1..], src, alts)
  {
    AlternativesOk(items[0], src, s, caps);
  }

  lemma NoChoice(items: seq<Item>, src: string, s: nat, caps: seq<Cap>)
    requires items != [] && CapsOk(src, caps, s)
    ensures var r := Alternatives(items[0], src, s, caps);
            && (r == Ok([]) ==> First(Den(items, src, s, caps)) == NotFound)
            && (r.Err? ==> First(Den(items, src, s, caps)) == Failed(r.error))
  {
  }

  /** No match starts between lo and hi. */
  ghost predicate NoMatch(items: seq<Item>, src: string, lo: nat, hi: nat)
    requires hi <= |src| + 1
  {
    forall k, end :: lo <= k < hi ==> !Matches(items, src, k, [], end)
  }

  lemma NoMatchNone(items: seq<Item>, src: string, lo: nat)
    requires lo <= |src|
    ensures NoMatch(items, src, lo, lo)
  {
  }

  lemma NoMatchStep(items: seq<Item>, src: string, lo: nat, hi: nat)
    requires hi <= |src| && NoMatch(items, src, lo, hi)
    requires forall end :: !Matches(items, src, hi, [], end)
    ensures NoMatch(items, src, lo, hi + 1)
  {
  }

  function BeforeZero(s: string): (r: string)
    ensures r <= s && '\0' !in r && (|r| < |s| ==> s[|r|] == '\0')
  {
    if s == "" || s[0] == '\0' then "" else [s[0]] + BeforeZero(s[1..])
  }

  /** MatchState, and the pattern that is being matched. */
  class MatchState {
    const src: string
    const pat: string
    const capture: array<Cap>
    var level: nat

    /** A pattern ends at its first zero. */
    constructor (src: string, pattern: string)
      ensures this.src == src && this.pat == BeforeZero(pattern) && fresh(capture) && Valid() && Caps() == []
    {
      this.src, this.pat, level := src, BeforeZero(pattern), 0;
      capture := new Cap[LUA_MAXCAPTURES](_ => Cap(0, 0));
    }

    ghost predicate Valid()
      reads this
    {
      capture.Length == LUA_MAXCAPTURES && level <= LUA_MAXCAPTURES && '\0' !in pat
    }

    function Caps(): seq<Cap>
      requires Valid()
      reads this, capture
    {
      capture[..level]
    }

    /** The result and the captures are those of outcome o; when nothing was found, the captures are back to
        `was`. */
    ghost predicate Delivers(r: Ptr, o: Outcome, was: seq<Cap>)
      requires Valid()
      reads this, capture
    {
      match o
      case Found(a) => r == To(a.s) && Caps() == a.caps
      case NotFound => r == Null && Caps() == was
      case Failed(e) => r == Raise(e)
    }

    // ----- single characters -----

    /** classend */
    method ClassEnd(p0: nat) returns (r: Result<nat, Error>)
      requires p0 < |pat|
      ensures r == PatternSpec.ClassEnd(pat, p0)
    {
      var p := p0 + 1;
      if pat[p0] == L_ESC {
        if p == |pat| { return Err(EndsWithEscape); }
        return Ok(p + 1);
      }
      if pat[p0] != '[' { return Ok(p); }
      if At(pat, p) == '^' { p := p + 1; }
      while true
        invariant p <= |pat| && SetEnd(pat, p) == PatternSpec.ClassEnd(pat, p0)
        decreases |pat| - p
      {
        if p == |pat| { return Err(MissingBracket); }
        var escape := pat[p] == L_ESC;
        p := p + 1;
        if escape && p < |pat| { p := p + 1; }  // an escaped bracket does not close the set
        if At(pat, p) == ']' { return Ok(p + 1); }
      }
    }

    /** matchbracketclass */
    method MatchBracketClass(c: char, p0: nat, ec: nat) returns (res: bool)
      requires ec < |pat|
      ensures res == InClass(c, SetAt(pat, p0, ec))
    {
      hide AnyMember, InClass, SetAt, Members, InMember, MatchClass;
      BracketClass(c, pat, p0, ec);
      var sig, p := true, p0;
      if At(pat, p + 1) == '^' {
        sig := false;
        p := p + 1;
      }
      ghost var members := Members(pat, p + 1, ec);
      p := p + 1;
      while p < ec
        invariant AnyMember(c, members) == AnyMember(c, Members(pat, p, ec))
        decreases ec - p
      {
        MemberStep(c, pat, p, ec);
        if pat[p] == L_ESC {
          p := p + 1;
          if MatchClass(c, At(pat, p)) { return sig; }
        } else if At(pat, p + 1) == '-' && p + 2 < ec {
          p := p + 2;
          if pat[p-2] <= c <= pat[p] { return sig; }
        } else {
          if pat[p] == c { return sig; }
        }
        p := p + 1;
      }
      NoMember(c, pat, p, ec);
      return !sig;
    }

    /** singlematch */
    method SingleMatch(c: char, p: nat, ep: nat) returns (res: bool)
      requires p < |pat| && PatternSpec.ClassEnd(pat, p) == Ok(ep)
      ensures res == InClass(c, ClassAt(pat, p, ep))
    {
      if pat[p] == '.' { return true; }
      if pat[p] == L_ESC { return MatchClass(c, At(pat, p + 1)); }
      if pat[p] == '[' { res := MatchBracketClass(c, p, ep - 1); return; }
      return pat[p] == c;
    }

    /** matchbalance */
    method MatchBalance(s0: nat, p: nat) returns (r: Ptr)
      requires s0 <= |src| && p <= |pat| && '\0' !in pat
      ensures p + 1 >= |pat| ==> r == Raise(UnbalancedPattern)
      ensures p + 1 < |pat| ==>
                r == if s0 == |src| || src[s0] != pat[p] then Null
                     else match BalanceEnd(src, s0 + 1, 1, pat[p], pat[p+1]) case None => Null case Some(e) => To(e)
    {
      if At(pat, p) == '\0' || At(pat, p + 1) == '\0' { return Raise(UnbalancedPattern); }
      if At(src, s0) != pat[p] { return Null; }
      var b, e, cont, s := pat[p], pat[p+1], 1, s0 + 1;
      while s < |src|
        invariant s0 < s <= |src| && cont > 0
        invariant BalanceEnd(src, s0 + 1, 1, b, e) == BalanceEnd(src, s, cont, b, e)
      {
        if src[s] == e {
          cont := cont - 1;
          if cont == 0 { return To(s + 1); }
        } else if src[s] == b {
          cont := cont + 1;
        }
        s := s + 1;
      }
      return Null;
    }

    // ----- captures -----

    /** check_capture */
    method CheckCapture(digit: char) returns (r: Result<nat, Error>)
      requires Valid()
      ensures var l := digit as int - '1' as int;
              r == if !(0 <= l < |Caps()|) || Caps()[l].len == CAP_UNFINISHED then Err(InvalidCaptureIndex) else Ok(l)
    {
      var l := digit as int - '1' as int;
      if l < 0 || l >= level || capture[l].len == CAP_UNFINISHED { return Err(InvalidCaptureIndex); }
      return Ok(l);
    }

    /** capture_to_close */
    method CaptureToClose() returns (r: Result<nat, Error>)
      requires Valid()
      ensures r == if LastOpen(Caps()) < 0 then Err(InvalidPatternCapture) else Ok(LastOpen(Caps()))
    {
      var l := level as int - 1;
      while l >= 0
        invariant -1 <= l < level && LastOpen(Caps()) == LastOpen(Caps()[..l+1])
      {
        assert Caps()[..l+1][..l] == Caps()[..l];
        if capture[l].len == CAP_UNFINISHED { return Ok(l); }
        l := l - 1;
      }
      return Err(InvalidPatternCapture);
    }

    /** match_capture */
    method MatchCapture(s: nat, digit: char) returns (r: Ptr)
      requires Valid() && CapsOk(src, Caps(), s)
      ensures match Alternatives(BackReference(digit), src, s, Caps())
              case Err(e) => r == Raise(e)
              case Ok(alts) => r == if alts == [] then Null else To(alts[0].s)
      ensures var a := Alternatives(BackReference(digit), src, s, Caps());
              r.To? ==> a == Ok([Alt(r.p, Caps())])
    {
      var l := CheckCapture(digit);
      if l.Err? { return Raise(l.error); }
      var len := capture[l.value].len;
      assert Caps()[l.value] == capture[l.value];
      if len == CAP_POSITION { return Null; }  // converted to an unsigned type, it is longer than any string
      var init := capture[l.value].init;
      if |src| - s >= len && src[init..init+len] == src[s..s+len] { return To(s + len); }
      return Null;
    }

    // ----- matching -----

    /** start_capture */
    method StartCapture(s: nat, p: nat, what: int) returns (r: Ptr)
      requires Valid() && CapsOk(src, Caps(), s) && p <= |pat| && (what == CAP_UNFINISHED || what == CAP_POSITION)
      modifies this`level, capture
      ensures Valid()
      ensures |old(Caps())| >= LUA_MAXCAPTURES ==> r == Raise(TooManyCaptures)
      ensures |old(Caps())| < LUA_MAXCAPTURES ==>
                var caps := old(Caps()) + [Cap(s, what)];
                CapsOk(src, caps, s) && Delivers(r, First(Den(Parse(pat, p), src, s, caps)), old(Caps()))
      decreases |pat| - p, 3
    {
      if level >= LUA_MAXCAPTURES { return Raise(TooManyCaptures); }
      ghost var was := Caps();
      capture[level] := Cap(s, what);
      level := level + 1;
      assert Caps() == was + [Cap(s, what)];
      r := Match(s, p);
      if r == Null {
        level := level - 1;  // as it was before
        assert Caps() == (was + [Cap(s, what)])[..|was|];
      }
    }

    /** end_capture */
    method EndCapture(s: nat, p: nat) returns (r: Ptr)
      requires Valid() && CapsOk(src, Caps(), s) && p <= |pat|
      modifies this`level, capture
      ensures Valid()
      ensures var l := LastOpen(old(Caps()));
              if l < 0 then r == Raise(InvalidPatternCapture)
              else var c := old(Caps())[l]; var caps := old(Caps())[l := Cap(c.init, s - c.init)];
                   CapsOk(src, caps, s) && Delivers(r, First(Den(Parse(pat, p), src, s, caps)), old(Caps()))
      decreases |pat| - p, 3
    {
      ghost var was := Caps();
      var l := CaptureToClose();
      if l.Err? { return Raise(l.error); }
      var i := l.value;
      capture[i] := Cap(capture[i].init, s - capture[i].init);
      assert Caps() == was[i := Cap(was[i].init, s - was[i].init)];
      r := Match(s, p);
      if r == Null {
        capture[i] := Cap(capture[i].init, CAP_UNFINISHED);  // open again
        assert Caps() == was;
      }
    }

    /** max_expand */
    method MaxExpand(s: nat, p: nat, ep: nat) returns (r: Ptr)
      requires Valid() && CapsOk(src, Caps(), s) && p < ep < |pat| && PatternSpec.ClassEnd(pat, p) == Ok(ep)
      modifies this`level, capture
      ensures Valid()
      ensures var alts := Downwards(s, RunLength(src, s, ClassAt(pat, p, ep)), old(Caps()));
              AltsOk(src, alts) && Delivers(r, First(DenAll(Parse(pat, ep + 1), src, alts)), old(Caps()))
      decreases |pat| - ep, 1
    {
      hide Den, DenAll, Parse, First, InClass, ClassAt, Downwards, AltsOk;
      ghost var k, was, items := ClassAt(pat, p, ep), Caps(), Parse(pat, ep + 1);
      var i := 0;
      var more := s + i < |src|;
      if more { more := SingleMatch(src[s+i], p, ep); }
      while more
        invariant Valid() && Caps() == was
        invariant s + i <= |src| && more == (s + i < |src| && InClass(src[s+i], k))
        invariant RunLength(src, s, k) == i + RunLength(src, s + i, k)
        decreases |src| - i
      {
        i := i + 1;
        more := s + i < |src|;
        if more { more := SingleMatch(src[s+i], p, ep); }
      }
      ghost var n := i;
      DownwardsStep(items, src, s, n, was);
      while i >= 0
        invariant -1 <= i <= n && Valid() && Caps() == was && AltsOk(src, Downwards(s, n, was))
        invariant i >= 0 ==> AltsOk(src, Downwards(s, i, was))
                             && First(DenAll(items, src, Downwards(s, n, was)))
                             == First(DenAll(items, src, Downwards(s, i, was)))
        invariant i < 0 ==> First(DenAll(items, src, Downwards(s, n, was))) == NotFound
      {
        DownwardsStep(items, src, s, i, was);
        r := Match(s + i, ep + 1);
        if r != Null { return; }
        i := i - 1;
      }
      return Null;
    }

    /** min_expand */
    method MinExpand(s0: nat, p: nat, ep: nat) returns (r: Ptr)
      requires Valid() && CapsOk(src, Caps(), s0) && p < ep < |pat| && PatternSpec.ClassEnd(pat, p) == Ok(ep)
      modifies this`level, capture
      ensures Valid()
      ensures var alts := Upwards(s0, RunLength(src, s0, ClassAt(pat, p, ep)), old(Caps()));
              AltsOk(src, alts) && Delivers(r, First(DenAll(Parse(pat, ep + 1), src, alts)), old(Caps()))
      decreases |pat| - ep, 1
    {
      hide Den, DenAll, Parse, First, InClass, ClassAt, Upwards, AltsOk, RunLength;
      ghost var k, was, items := ClassAt(pat, p, ep), Caps(), Parse(pat, ep + 1);
      UpwardsStep(items, src, s0, k, was);
      var s := s0;
      while true
        invariant s0 <= s <= |src| && Valid() && Caps() == was && AltsOk(src, Upwards(s, RunLength(src, s, k), was))
        invariant AltsOk(src, Upwards(s0, RunLength(src, s0, k), was))
        invariant First(DenAll(items, src, Upwards(s0, RunLength(src, s0, k), was)))
               == First(DenAll(items, src, Upwards(s, RunLength(src, s, k), was)))
        decreases |src| - s
      {
        UpwardsStep(items, src, s, k, was);
        r := Match(s, ep + 1);
        if r != Null { return; }
        var more := s < |src|;
        if more { more := SingleMatch(src[s], p, ep); }
        if !more { return Null; }
        s := s + 1;
      }
    }

    /** The case `dflt` of match, for a pattern item that is a class with its suffix.  It ends with a result,
        or it goes back to `init` with new s and p. */
    method MatchItem(s0: nat, p0: nat) returns (r: Ptr, again: bool, s: nat, p: nat)
      requires Valid() && CapsOk(src, Caps(), s0) && p0 < |pat| && ItemAt(pat, p0) == CharsAt(pat, p0)
      modifies this`level, capture
      ensures Valid()
      ensures var o := First(Den(Parse(pat, p0), src, s0, old(Caps())));
              if again then
                && Caps() == old(Caps()) && p0 < p <= |pat| && CapsOk(src, Caps(), s)
                && o == First(Den(Parse(pat, p), src, s, Caps()))
              else Delivers(r, o, old(Caps()))
      decreases |pat| - p0, 1
    {
      hide Den, DenAll, Parse, First, InClass, ClassAt, RunLength, Downwards, Upwards;
      ghost var was := Caps();
      ParseStep(pat, p0);
      ghost var items := Parse(pat, p0);
      NoChoice(items, src, s0, was);
      r, again, s, p := Null, false, s0, p0;
      var end := ClassEnd(p0);
      if end.Err? { r := Raise(end.error); return; }
      var ep := end.value;
      var m := s0 < |src|;
      if m { m := SingleMatch(src[s0], p0, ep); }
      ghost var k := ClassAt(pat, p0, ep);
      RunStart(src, s0, k);
      var suffix := At(pat, ep);
      if suffix == '?' {
        p := ep + 1;
        if m {
          TwoChoices(items, src, s0, was, Alt(s0 + 1, was), Alt(s0, was));
          r := Match(s0 + 1, ep + 1);
          if r != Null { return; }
        } else {
          OnlyChoice(items, src, s0, was, Alt(s0, was));
        }
        again := true;
      } else if suffix == '*' {
        Choices(items, src, s0, was, Downwards(s0, RunLength(src, s0, k), was));
        r := MaxExpand(s0, p0, ep);
      } else if suffix == '+' {
        if m {
          Choices(items, src, s0, was, Downwards(s0 + 1, RunLength(src, s0, k) - 1, was));
          r := MaxExpand(s0 + 1, p0, ep);
        }
      } else if suffix == '-' {
        Choices(items, src, s0, was, Upwards(s0, RunLength(src, s0, k), was));
        r := MinExpand(s0, p0, ep);
      } else if m {
        OnlyChoice(items, src, s0, was, Alt(s0 + 1, was));
        again, s, p := true, s0 + 1, ep;
      }
    }

    /** The cases `%b`, `%f` and `%0` to `%9` of match: they fail, or go back to `init` with new s and p. */
    method MatchEscape(s0: nat, p0: nat) returns (r: Ptr, s: nat, p: nat)
      requires Valid() && CapsOk(src, Caps(), s0) && p0 < |pat| && pat[p0] == L_ESC
      requires var next := At(pat, p0 + 1); next == 'b' || next == 'f' || IsDigit(next)
      ensures var o := First(Den(Parse(pat, p0), src, s0, Caps()));
              if r.To? then
                && p0 < p <= |pat| && CapsOk(src, Caps(), s) && o == First(Den(Parse(pat, p), src, s, Caps()))
              else Delivers(r, o, Caps())
    {
      hide Den, DenAll, First, InClass, ClassAt, Members, CharsAt, Parse;
      ghost var was, items := Caps(), Parse(pat, p0);
      ParseStep(pat, p0);
      NoChoice(items, src, s0, was);
      var next := At(pat, p0 + 1);
      r, s, p := To(s0), s0, p0;
      if next == 'b' {
        r := MatchBalance(s, p + 2);
        if !r.To? { return; }
        OnlyChoice(items, src, s0, was, Alt(r.p, was));
        s, p := r.p, p + 4;
      } else if next == 'f' {
        if At(pat, p + 2) != '[' { r := Raise(MissingFrontierSet); return; }
        var end := ClassEnd(p + 2);
        if end.Err? { r := Raise(end.error); return; }
        var ep := end.value;
        var before := MatchBracketClass(At(src, s - 1), p + 2, ep - 1);
        var here := MatchBracketClass(At(src, s), p + 2, ep - 1);
        if before || !here { r := Null; return; }
        OnlyChoice(items, src, s0, was, Alt(s0, was));
        p := ep;
      } else {
        r := MatchCapture(s, next);
        if !r.To? { return; }
        OnlyChoice(items, src, s0, was, Alt(r.p, was));
        s, p := r.p, p + 2;
      }
    }

    /** match */
    method Match(s0: nat, p0: nat) returns (r: Ptr)
      requires Valid() && CapsOk(src, Caps(), s0) && p0 <= |pat|
      modifies this`level, capture
      ensures Valid() && Delivers(r, First(Den(Parse(pat, p0), src, s0, old(Caps()))), old(Caps()))
      decreases |pat| - p0, 2
    {
      hide Den, DenAll, First, InClass, ClassAt, Members, RunLength, Downwards, Upwards, CharsAt;
      ghost var was := Caps();
      AtTheEnd(src, s0, was);
      var s: nat, p: nat := s0, p0;
      while p < |pat|
        invariant p0 <= p <= |pat| && Valid() && Caps() == was && CapsOk(src, was, s)
        invariant First(Den(Parse(pat, p), src, s, was)) == First(Den(Parse(pat, p0), src, s0, was))
        decreases |pat| - p
      {
        ghost var items := Parse(pat, p);
        ParseStep(pat, p);
        NoChoice(items, src, s, was);
        var next := At(pat, p + 1);
        if pat[p] == '(' {
          if |was| < LUA_MAXCAPTURES {
            var what := if next == ')' then CAP_POSITION else CAP_UNFINISHED;
            OnlyChoice(items, src, s, was, Alt(s, was + [Cap(s, what)]));
          }
          if next == ')' {
            r := StartCapture(s, p + 2, CAP_POSITION);
          } else {
            r := StartCapture(s, p + 1, CAP_UNFINISHED);
          }
          return;
        } else if pat[p] == ')' {
          ghost var l := LastOpen(was);
          if l >= 0 { OnlyChoice(items, src, s, was, Alt(s, was[l := Cap(was[l].init, s - was[l].init)])); }
          r := EndCapture(s, p + 1);
          return;
        } else if pat[p] == L_ESC && (next == 'b' || next == 'f' || IsDigit(next)) {
          var s', p';
          r, s', p' := MatchEscape(s, p);
          if !r.To? { return; }
          s, p := s', p';
        } else if pat[p] == '$' && p + 1 == |pat| {  // an anchor only at the very end
          AtTheEnd(src, s, was);
          if s == |src| { OnlyChoice(items, src, s, was, Alt(s, was)); }
          return if s == |src| then To(s) else Null;
        } else {
          var again, s', p';
          r, again, s', p' := MatchItem(s, p);
          if !again { return; }
          s, p := s', p';
        }
      }
      AtTheEnd(src, s, was);
      return To(s);
    }

    /** str_find_aux, the search for a pattern: the captures are those of the leftmost match. */
    method Find(init: nat) returns (start: nat, r: Ptr)
      requires Valid() && init <= |src|
      modifies this`level, capture
      ensures Valid()
      ensures var anchor := At(pat, 0) == '^'; var items := Parse(pat, if anchor then 1 else 0);
              match r
              case To(e) =>
                && init <= start <= |src| && (anchor ==> start == init)
                && First(Den(items, src, start, [])) == Found(Alt(e, Caps()))
                && Matches(items, src, start, [], Alt(e, Caps()))
                && NoMatch(items, src, init, start)
              case Null => NoMatch(items, src, init, if anchor then init + 1 else |src| + 1)
              case Raise(e) =>
                && init <= start <= |src| && First(Den(items, src, start, [])) == Failed(e)
                && NoMatch(items, src, init, start)
    {
      hide Den, First, Matches, Parse, NoMatch;
      NoMatchNone(Parse(pat, if At(pat, 0) == '^' then 1 else 0), src, init);
      var anchor := At(pat, 0) == '^';
      var p := if anchor then 1 else 0;
      ghost var items := Parse(pat, p);
      start := init;
      while true
        invariant init <= start <= |src| && Valid() && (anchor ==> start == init)
        invariant NoMatch(items, src, init, start)
        decreases |src| - start
      {
        level := 0;
        r := Match(start, p);
        FirstSound(items, src, start, []);
        if r == Null { NoMatchStep(items, src, init, start); }
        if r != Null || start == |src| || anchor { return; }
        start := start + 1;
      }
    }
  }

  /** The first success is a match; and nothing matches if there is no success. */
  lemma FirstSound(items: seq<Item>, src: string, s: nat, caps: seq<Cap>)
    requires CapsOk(src, caps, s)
    ensures var o := First(Den(items, src, s, caps));
            && (o.Found? ==> Matches(items, src, s, caps, o.alt))
            && (o.NotFound? ==> forall end :: !Matches(items, src, s, caps, end))
  {
    var d := Den(items, src, s, caps);
    if d.found != [] { DenSound(items, src, s, caps, d.found[0]); }
    forall end | First(d).NotFound? ensures !Matches(items, src, s, caps, end) {
      DenSound(items, src, s, caps, end);
    }
  }

  /** `*` takes the longest run behind which the rest of the pattern matches. */
  lemma GreedyTakesLongest(rest: seq<Item>, src: string, s: nat, k: Class, caps: seq<Cap>, a: Alt) returns (mid: nat)
    requires CapsOk(src, caps, s) && First(Den([Chars(k, Greedy)] + rest, src, s, caps)) == Found(a)
    ensures Covers(src, s, mid, k) && First(Den(rest, src, mid, caps)) == Found(a)
    ensures forall t, end :: mid < t && Covers(src, s, t, k) ==> !Matches(rest, src, t, caps, end)
  {
    hide Den, DenAll, First, Matches, RunLength, Downwards, InClass;
    var run := RunLength(src, s, k);
    Choices([Chars(k, Greedy)] + rest, src, s, caps, Downwards(s, run, caps));
    assert ([Chars(k, Greedy)] + rest)[1..] == rest;
    forall t: nat ensures Covers(src, s, t, k) <==> s <= t <= s + run { RunIsLongest(src, s, k, t); }
    mid := s + run;
    while First(Den(rest, src, mid, caps)).NotFound?
      invariant s <= mid <= s + run && AltsOk(src, Downwards(s, mid - s, caps))
      invariant First(DenAll(rest, src, Downwards(s, mid - s, caps))) == Found(a)
      invariant forall t, end :: mid < t <= s + run ==> !Matches(rest, src, t, caps, end)
      decreases mid
    {
      DownwardsStep(rest, src, s, mid - s, caps);
      FirstSound(rest, src, mid, caps);
      mid := mid - 1;
    }
    DownwardsStep(rest, src, s, mid - s, caps);
  }

  /** `-` takes the shortest run behind which the rest of the pattern matches. */
  lemma LazyTakesShortest(rest: seq<Item>, src: string, s: nat, k: Class, caps: seq<Cap>, a: Alt) returns (mid: nat)
    requires CapsOk(src, caps, s) && First(Den([Chars(k, Lazy)] + rest, src, s, caps)) == Found(a)
    ensures Covers(src, s, mid, k) && First(Den(rest, src, mid, caps)) == Found(a)
    ensures forall t, end :: s <= t < mid ==> !Matches(rest, src, t, caps, end)
  {
    hide Den, DenAll, First, Matches, Upwards;
    var run := RunLength(src, s, k);
    Choices([Chars(k, Lazy)] + rest, src, s, caps, Upwards(s, run, caps));
    assert ([Chars(k, Lazy)] + rest)[1..] == rest;
    mid := s;
    while First(Den(rest, src, mid, caps)).NotFound?
      invariant s <= mid <= |src| && run == mid - s + RunLength(src, mid, k)
      invariant AltsOk(src, Upwards(mid, RunLength(src, mid, k), caps))
      invariant First(DenAll(rest, src, Upwards(mid, RunLength(src, mid, k), caps))) == Found(a)
      invariant forall t, end :: s <= t < mid ==> !Matches(rest, src, t, caps, end)
      decreases |src| - mid
    {
      UpwardsStep(rest, src, mid, k, caps);
      FirstSound(rest, src, mid, caps);
      mid := mid + 1;
    }
    UpwardsStep(rest, src, mid, k, caps);
    RunIsLongest(src, s, k, mid);
  }
}
