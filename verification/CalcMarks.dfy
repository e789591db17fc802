/** Which operands of a calculation are marked as results of the ones nested in it: exactly those at the
    places told, and how these places compare with where the results are. */
module CalcMarks {
  import opened Wrappers
  import opened Text
  import opened Sequences
  import opened CalcGrammar
  import opened CalcLexer
  import opened CalcLexerFacts
  import opened CalcAnswer
  import opened CalcFeeds
  import CalcOperands
  import CalcResolve
  import CalcResolveFacts

  // ---------------------------------------------------------------- where inner results are written

  /** The number of a result begins after its sign. */
  function SignOf<F>(ru: Rules<F>, v: F): nat {
    var p := ru.plain(v);
    if p != [] && p[0] == '-' then 1 else 0
  }

  /** One of the set-ups among `items` has a value, and its number begins at x of their text. */
  ghost predicate ResultAt<F>(ru: Rules<F>, items: Items, x: int) {
    exists before, inner, after :: items == Body(before, inner, after) && WrittenAt(ru, before, inner, x)
  }

  predicate WrittenAt<F>(ru: Rules<F>, before: Items, inner: Items, x: int) {
    && CalcOf(ru, inner).value.Some?
    && x == |Inside(ru, before).text| + SignOf(ru, CalcOf(ru, inner).value.value)
  }

  function One<F>(ru: Rules<F>, item: CalcResolve.Item): Local<F> {
    CalcResolve.MeaningOf(EngineOf(ru), item, true, CalcResolve.Empty())
  }

  lemma InsideCons<F>(ru: Rules<F>, item: CalcResolve.Item, rest: Items)
    ensures Inside(ru, [item] + rest) == CalcResolveFacts.After(One(ru, item), Inside(ru, rest))
  {
    assert ([item] + rest)[1..] == rest;
    CalcResolveFacts.ReadsTheSameAnywhere(EngineOf(ru), rest, true, One(ru, item));
  }

  /** A set-up notes its result's place, anything else none. */
  lemma OneNotes<F>(ru: Rules<F>, item: CalcResolve.Item)
    ensures One(ru, item).derived ==
            if item.SetUp? && CalcOf(ru, item.body).value.Some? then [SignOf(ru, CalcOf(ru, item.body).value.value)]
                else []
  {
    if item.SetUp? {
      var c := CalcOf(ru, item.body);
      assert One(ru, item)
          == CalcResolve.Closed(EngineOf(ru), true, CalcResolve.Empty(), Inside(ru, item.body));
      if c.value.Some? {
        assert [] + [0 + SignOf(ru, c.value.value)] == [SignOf(ru, c.value.value)];
      }
    }
  }

  lemma ResultFirst<F>(ru: Rules<F>, item: CalcResolve.Item, rest: Items, x: int)
    requires item.SetUp? && CalcOf(ru, item.body).value.Some? && x == SignOf(ru, CalcOf(ru, item.body).value.value)
    ensures ResultAt(ru, [item] + rest, x)
  {
    assert Body([], item.body, rest) == [item] + rest;
    assert WrittenAt(ru, [], item.body, x);
  }

  lemma BodyCons(item: CalcResolve.Item, before: Items, inner: Items, after: Items)
    ensures Body([item] + before, inner, after) == [item] + Body(before, inner, after)
  {
    ConcatAssociates([item], before, [CalcResolve.SetUp(inner)]);
    ConcatAssociates([item], before + [CalcResolve.SetUp(inner)], after);
  }

  lemma WrittenLater<F>(ru: Rules<F>, item: CalcResolve.Item, before: Items, inner: Items, x: int)
    ensures WrittenAt(ru, [item] + before, inner, |One(ru, item).text| + x) <==> WrittenAt(ru, before, inner, x)
  {
    InsideCons(ru, item, before);
  }

  lemma ResultLater<F>(ru: Rules<F>, item: CalcResolve.Item, rest: Items, x: int)
    requires ResultAt(ru, rest, x)
    ensures ResultAt(ru, [item] + rest, |One(ru, item).text| + x)
  {
    var before, inner, after :| rest == Body(before, inner, after) && WrittenAt(ru, before, inner, x);
    BodyCons(item, before, inner, after);
    WrittenLater(ru, item, before, inner, x);
  }

  lemma ResultSplits<F>(ru: Rules<F>, item: CalcResolve.Item, rest: Items, x: int)
    requires ResultAt(ru, [item] + rest, x)
    ensures (item.SetUp? && CalcOf(ru, item.body).value.Some? && x == SignOf(ru, CalcOf(ru, item.body).value.value))
            || ResultAt(ru, rest, x - |One(ru, item).text|)
  {
    var before, inner, after :| [item] + rest == Body(before, inner, after) && WrittenAt(ru, before, inner, x);
    if before == [] {
      assert Body(before, inner, after)[0] == CalcResolve.SetUp(inner);
    } else {
      SplitsLater(ru, item, rest, before, inner, after, x);
    }
  }

  lemma SplitsLater<F>(ru: Rules<F>, item: CalcResolve.Item, rest: Items, before: Items, inner: Items, after: Items,
                       x: int)
    requires [item] + rest == Body(before, inner, after) && before != [] && WrittenAt(ru, before, inner, x)
    ensures ResultAt(ru, rest, x - |One(ru, item).text|)
  {
    SameTail(item, rest, before, inner, after);
    WrittenLater(ru, item, before[1..], inner, x - |One(ru, item).text|);
  }

  lemma SameTail(item: CalcResolve.Item, rest: Items, before: Items, inner: Items, after: Items)
    requires [item] + rest == Body(before, inner, after) && before != []
    ensures before == [item] + before[1..] && rest == Body(before[1..], inner, after)
  {
    assert Body(before, inner, after)[0] == before[0];
    assert before == [before[0]] + before[1..];
    BodyCons(before[0], before[1..], inner, after);
    assert ([item] + rest)[1..] == rest;
  }

  /** The places noted while a set-up is read are those of the results written in it. */
  lemma {:induction false} NotesAreResults<F>(ru: Rules<F>, items: Items, x: int)
    ensures x in Inside(ru, items).derived <==> ResultAt(ru, items, x)
    decreases |items|
  {
    if items == [] {
      NoResult(ru, x);
    } else {
      assert items == [items[0]] + items[1..];
      NotesAreResults(ru, items[1..], x - |One(ru, items[0]).text|);
      NotesCons(ru, items[0], items[1..], x);
    }
  }

  lemma NoResult<F>(ru: Rules<F>, x: int)
    ensures !ResultAt(ru, [], x) && x !in Inside(ru, []).derived
  {
    assert forall before, inner, after :: |Body(before, inner, after)| > 0;
  }

  lemma NotesCons<F>(ru: Rules<F>, item: CalcResolve.Item, rest: Items, x: int)
    requires var y := x - |One(ru, item).text|; y in Inside(ru, rest).derived <==> ResultAt(ru, rest, y)
    ensures x in Inside(ru, [item] + rest).derived <==> ResultAt(ru, [item] + rest, x)
  {
    var y := x - |One(ru, item).text|;
    InsideCons(ru, item, rest);
    OneNotes(ru, item);
    ShiftedMember(Inside(ru, rest).derived, |One(ru, item).text|, x);
    if ResultAt(ru, [item] + rest, x) {
      ResultSplits(ru, item, rest, x);
    }
    if ResultAt(ru, rest, y) {
      ResultLater(ru, item, rest, y);
    }
    if x in One(ru, item).derived {
      ResultFirst(ru, item, rest, x);
    }
  }

  lemma ShiftedMember(places: seq<int>, offset: int, x: int)
    ensures x in CalcResolveFacts.Shifted(places, offset) <==> x - offset in places
  {
    var s := CalcResolveFacts.Shifted(places, offset);
    if x - offset in places {
      var k :| 0 <= k < |places| && places[k] == x - offset;
      assert s[k] == x;
    }
  }

  // ---------------------------------------------------------------- which operands are marked

  /** How far off the places are that a calculation is told: by what trimming Unicode white space takes off
      the front of its set-up beyond the spaces, tabs and newlines there. */
  function Skew<F>(ru: Rules<F>, items: Items): nat {
    var s := Inside(ru, items).text;
    BlankIsSpace(s);
    LeadingSpace(s) - Leading(s, Blank)
  }

  /** Where in the text of a set-up an operand of its calculation begins. */
  function TextPlace<F>(ru: Rules<F>, items: Items, u: Used<F>): nat {
    LeadingSpace(Inside(ru, items).text) + u.operand.pos
  }

  /** An operand is marked exactly when an inner result was written as many bytes before it as the places
      are off. */
  lemma MarkedIffWritten<F>(ru: Rules<F>, items: Items, u: Used<F>)
    requires u in CalcOf(ru, items).operands
    ensures u.derived <==> ResultAt(ru, items, TextPlace(ru, items, u) - Skew(ru, items))
    ensures Skew(ru, items) == 0 ==> (u.derived <==> ResultAt(ru, items, TextPlace(ru, items, u)))
  {
    var l := Inside(ru, items);
    var x := u.operand.pos + Leading(l.text, Blank);
    NotesAreResults(ru, items, x);
    ToldIffNoted(l.derived, Leading(l.text, Blank), u.operand.pos);
    MarkedIffTold(ru, CalcResolve.Expression(l), CalcResolve.Places(l), u);
  }

  lemma ToldIffNoted(noted: seq<int>, origin: int, p: int)
    ensures p in CalcResolve.Relative(noted, origin) <==> p + origin in noted
  {
    if p + origin in noted {
      var k :| 0 <= k < |noted| && noted[k] == p + origin;
      assert noted[k] - origin == p;
    }
  }

  lemma MarkedIffTold<F>(ru: Rules<F>, expr: string, at: set<int>, u: Used<F>)
    requires u in Calculate(ru, expr, at).operands
    ensures u.derived <==> u.operand.pos in at
  {
  }

  // ---------------------------------------------------------------- the operand an inner result is

  lemma {:induction false} OperandListed<F>(ar: Arith<F>, toks: seq<Token<F>>, i: nat, n: nat)
    requires i < n <= |toks| && toks[i].Num?
    ensures CalcOperands.OperandAt(ar, toks, i) in CalcOperands.OperandsIn(ar, toks, n)
    decreases n
  {
    if i < n - 1 {
      OperandListed(ar, toks, i, n - 1);
    }
  }

  /** Where in the outer expression the operand begins that the inner result is: at its number, or at the
      currency sign before that. */
  function OperandPlace<F>(ru: Rules<F>, before: Items, n: Numeral<F>, fr: Frame<F>): nat {
    NumberStart(fr, Head(ru, before)) + SignSize(n)
  }

  function SignSize<F>(n: Numeral<F>): nat { if n.negative then 1 else 0 }

  lemma ResultIsOperand<F(!new)>(ru: Rules<F>, rd: Reader<F>, before: Items, inner: Items, after: Items,
                                 n: Numeral<F>, fr: Frame<F>)
    requires Gives(ru, inner, n) && Stands(ru, rd, before, after, n, fr)
    ensures exists u :: u in CalcOf(ru, Body(before, inner, after)).operands
                        && u.operand.pos == OperandPlace(ru, before, n, fr)
  {
    StandsPrepared(ru, rd, before, after, n, fr);
    OperandInBody(ru, rd, before, inner, after, n, fr);
  }

  lemma OperandInBody<F(!new)>(ru: Rules<F>, rd: Reader<F>, before: Items, inner: Items, after: Items, n: Numeral<F>,
                               fr: Frame<F>)
    requires Prepared(ru.scan, rd, fr, Ascii(Head(ru, before)), n, Ascii(Tail(ru, after))) && Gives(ru, inner, n)
    ensures exists u :: u in CalcOf(ru, Body(before, inner, after)).operands
                        && u.operand.pos == OperandPlace(ru, before, n, fr)
  {
    LeavesNumeral(ru, inner, n);
    ExpressionOfBody(ru, before, inner, after);
    ResultTokens(ru.scan, rd, fr, Head(ru, before), n, Tail(ru, after));
    var toks, i := TokensWith(rd, fr, n, NumberStart(fr, Head(ru, before))), |fr.before| + SignSize(n);
    NumberToken(rd, fr, n, NumberStart(fr, Head(ru, before)));
    OperandAtToken(ru, CalcResolve.Expression(Inside(ru, Body(before, inner, after))),
                   CalcResolve.Places(Inside(ru, Body(before, inner, after))), toks, i);
  }

  lemma NumberToken<F>(rd: Reader<F>, fr: Frame<F>, n: Numeral<F>, at: nat)
    ensures var toks, i := TokensWith(rd, fr, n, at), |fr.before| + SignSize(n);
            i < |toks| && toks[i].Num? && toks[i].pos == at + SignSize(n)
  {
    var s := Flatten(NumberTree(Priced(rd, fr, n), at));
    assert s[SignSize(n)].Num? && s[SignSize(n)].pos == at + SignSize(n);
    assert (fr.before + s + fr.after)[|fr.before| + SignSize(n)] == s[SignSize(n)];
  }

  lemma OperandAtToken<F>(ru: Rules<F>, expr: string, at: set<int>, toks: seq<Token<F>>, i: nat)
    requires Tokens(ru.scan, expr) == Some(toks) && i < |toks| && toks[i].Num?
    ensures exists u :: u in Calculate(ru, expr, at).operands && u.operand.pos == toks[i].pos
  {
    OperandListed(ru.ar, toks, i, |toks|);
    var ops := CalcOperands.OperandsIn(ru.ar, toks, |toks|);
    var k :| 0 <= k < |ops| && ops[k] == CalcOperands.OperandAt(ru.ar, toks, i);
    assert Calculate(ru, expr, at).operands[k].operand == ops[k];
  }

  lemma LeadingOfBody<F>(ru: Rules<F>, before: Items, inner: Items, after: Items, n: Numeral<F>)
    requires Gives(ru, inner, n)
    ensures Leading(Inside(ru, Body(before, inner, after)).text, Blank) == Leading(Inside(ru, before).text, Blank)
  {
    LeavesNumeral(ru, inner, n);
    TextOfBody(ru, before, inner, after);
    LeadingAround(Inside(ru, before).text, Left(ru, inner), Inside(ru, after).text);
  }

  lemma LeadingSpaceOfBody<F>(ru: Rules<F>, before: Items, inner: Items, after: Items, n: Numeral<F>)
    requires Gives(ru, inner, n)
    ensures LeadingSpace(Inside(ru, Body(before, inner, after)).text) == LeadingSpace(Inside(ru, before).text)
  {
    var pre, p, post := Inside(ru, before).text, Left(ru, inner), Inside(ru, after).text;
    LeavesNumeral(ru, inner, n);
    TextOfBody(ru, before, inner, after);
    ConcatAssociates(pre, p, post);
    assert (p + post)[0] == p[0];
    LeadingSpaceKeeps(pre, p + post);
  }

  /** The inner set-up's own number begins where it was written, and a result of a later set-up later. */
  lemma ResultsFromHere<F>(ru: Rules<F>, before: Items, inner: Items, after: Items, n: Numeral<F>, x: int)
    requires Gives(ru, inner, n) && (forall y :: !ResultAt(ru, before, y))
             && ResultAt(ru, Body(before, inner, after), x)
    ensures x >= |Inside(ru, before).text| + SignSize(n)
  {
    LocalOfBody(ru, before, inner, after);
    ClosedNotes(ru, inner, n);
    ClosedText(ru, inner, n);
    NotesAreResults(ru, Body(before, inner, after), x);
    NotesAreResults(ru, before, x);
    var b, c := Inside(ru, before), CalcResolve.Closed(EngineOf(ru), true, CalcResolve.Empty(), Inside(ru, inner));
    NotedAfter(ru, b, c, after, Inside(ru, Body(before, inner, after)), SignSize(n), x);
  }

  lemma NotedAfter<F>(ru: Rules<F>, b: Local<F>, c: Local<F>, after: Items, l: Local<F>, at: nat, x: int)
    requires l == CalcResolveFacts.After(CalcResolveFacts.After(b, c), Inside(ru, after))
    requires x in l.derived && x !in b.derived && c.derived == [at] && |c.text| >= at
    ensures x >= |b.text| + at
  {
    NotesAreNatural(ru, after, x - |b.text + c.text|);
    NotedFromHere(b, c, Inside(ru, after), at, x);
  }

  lemma ClosedText<F>(ru: Rules<F>, inner: Items, n: Numeral<F>)
    requires Gives(ru, inner, n)
    ensures |CalcResolve.Closed(EngineOf(ru), true, CalcResolve.Empty(), Inside(ru, inner)).text| >= SignSize(n)
  {
    LeavesNumeral(ru, inner, n);
    assert "" + Left(ru, inner) == Left(ru, inner);
  }

  lemma NotesAreNatural<F>(ru: Rules<F>, items: Items, x: int)
    ensures x in Inside(ru, items).derived ==> x >= 0
  {
    NotesAreResults(ru, items, x);
  }

  lemma NotedFromHere<F>(b: Local<F>, c: Local<F>, a: Local<F>, at: nat, x: int)
    requires x in CalcResolveFacts.After(CalcResolveFacts.After(b, c), a).derived
    requires x !in b.derived && c.derived == [at] && |c.text| >= at
    requires x - |b.text + c.text| in a.derived ==> x >= |b.text + c.text|
    ensures x >= |b.text| + at
  {
    ShiftedMember(c.derived, |b.text|, x);
    ShiftedMember(a.derived, |b.text + c.text|, x);
  }

  lemma ClosedNotes<F>(ru: Rules<F>, inner: Items, n: Numeral<F>)
    requires Gives(ru, inner, n)
    ensures CalcResolve.Closed(EngineOf(ru), true, CalcResolve.Empty(), Inside(ru, inner)).derived == [SignSize(n)]
  {
    var p := Spelled(n);
    assert p != "" && (p[0] == '-' <==> n.negative);
    assert [] + [0 + SignSize(n)] == [SignSize(n)];
  }

  lemma NoteAfter<F>(b: Local<F>, c: Local<F>, a: Local<F>, at: int)
    requires c.derived == [at]
    ensures var l := CalcResolveFacts.After(CalcResolveFacts.After(b, c), a);
            |l.derived| > |b.derived| && l.derived[|b.derived|] == |b.text| + at
  {
  }

  lemma NoteOfBody<F>(ru: Rules<F>, before: Items, inner: Items, after: Items, n: Numeral<F>)
    requires Gives(ru, inner, n)
    ensures var l, b := Inside(ru, Body(before, inner, after)), Inside(ru, before);
            |l.derived| > |b.derived| && l.derived[|b.derived|] == |b.text| + SignSize(n)
  {
    LocalOfBody(ru, before, inner, after);
    ClosedNotes(ru, inner, n);
    NoteAfter(Inside(ru, before), CalcResolve.Closed(EngineOf(ru), true, CalcResolve.Empty(), Inside(ru, inner)),
              Inside(ru, after), SignSize(n));
  }

  lemma OwnResult<F>(ru: Rules<F>, before: Items, inner: Items, after: Items, n: Numeral<F>)
    requires Gives(ru, inner, n)
    ensures ResultAt(ru, Body(before, inner, after), |Inside(ru, before).text| + SignSize(n))
  {
    var l, b := Inside(ru, Body(before, inner, after)), Inside(ru, before);
    NoteOfBody(ru, before, inner, after, n);
    assert l.derived[|b.derived|] in l.derived;
    NotesAreResults(ru, Body(before, inner, after), |b.text| + SignSize(n));
  }

  /** The operand that the first inner result is in the outer calculation is marked as derived if and only
      if the two trimmings take equally much off the front of the set-up, and no currency sign stands
      directly before the result. */
  lemma ResultMarkedIff<F(!new)>(ru: Rules<F>, rd: Reader<F>, before: Items, inner: Items, after: Items,
                                 n: Numeral<F>, fr: Frame<F>, u: Used<F>)
    requires Gives(ru, inner, n) && Stands(ru, rd, before, after, n, fr) && forall y :: !ResultAt(ru, before, y)
    requires u in CalcOf(ru, Body(before, inner, after)).operands && u.operand.pos == OperandPlace(ru, before, n, fr)
    ensures u.derived <==> Skew(ru, before) == 0 && fr.currency == ""
  {
    var items := Body(before, inner, after);
    LeadingOfBody(ru, before, inner, after, n);
    LeadingSpaceOfBody(ru, before, inner, after, n);
    MarkedIffWritten(ru, items, u);
    var own := |Inside(ru, before).text| + SignSize(n);
    StandsAfterCurrency(ru, rd, before, after, n, fr);
    assert TextPlace(ru, items, u) - Skew(ru, items) == own - |fr.currency| - Skew(ru, before);
    if u.derived {
      ResultsFromHere(ru, before, inner, after, n, own - |fr.currency| - Skew(ru, before));
    }
    OwnResult(ru, before, inner, after, n);
  }

  lemma StandsAfterCurrency<F(!new)>(ru: Rules<F>, rd: Reader<F>, before: Items, after: Items, n: Numeral<F>,
                                     fr: Frame<F>)
    requires Stands(ru, rd, before, after, n, fr)
    ensures NumberStart(fr, Head(ru, before)) == |Head(ru, before)| - |fr.currency|
  {
  }

  /** So where other results stand before it too, an inner result's operand is marked whenever the places
      are right. */
  lemma ResultIsMarked<F(!new)>(ru: Rules<F>, rd: Reader<F>, before: Items, inner: Items, after: Items,
                                n: Numeral<F>, fr: Frame<F>, u: Used<F>)
    requires Gives(ru, inner, n) && Stands(ru, rd, before, after, n, fr) && Skew(ru, before) == 0 && fr.currency == ""
    requires u in CalcOf(ru, Body(before, inner, after)).operands && u.operand.pos == OperandPlace(ru, before, n, fr)
    ensures u.derived
  {
    LeadingOfBody(ru, before, inner, after, n);
    LeadingSpaceOfBody(ru, before, inner, after, n);
    MarkedIffWritten(ru, Body(before, inner, after), u);
    OwnResult(ru, before, inner, after, n);
  }

  // ---------------------------------------------------------------- the places told

  /** Where the inner number itself begins in the outer expression. */
  function NumberPlace<F>(ru: Rules<F>, before: Items, n: Numeral<F>): nat {
    |Head(ru, before)| + SignSize(n)
  }

  /** And where the outer calculation is told that it does. */
  function ToldPlace<F>(ru: Rules<F>, before: Items, n: Numeral<F>): nat {
    NumberPlace(ru, before, n) + Skew(ru, before)
  }

  /** The outer calculation is told where the inner result begins: off by the white space that one of the
      two trimmings leaves, and so exactly there if that is none. */
  lemma PlaceOfResult<F>(ru: Rules<F>, before: Items, inner: Items, after: Items, n: Numeral<F>)
    requires Gives(ru, inner, n)
    ensures ToldPlace(ru, before, n) in CalcResolve.Places(Inside(ru, Body(before, inner, after)))
  {
    PlaceTold(ru, before, inner, after, n, ToldPlace(ru, before, n));
  }

  lemma PlaceTold<F>(ru: Rules<F>, before: Items, inner: Items, after: Items, n: Numeral<F>, p: int)
    requires Gives(ru, inner, n) && p == ToldPlace(ru, before, n)
    ensures p in CalcResolve.Places(Inside(ru, Body(before, inner, after)))
  {
    PlaceInText(ru, before, n, p);
    ResultTold(ru, before, inner, after, n, p);
  }

  lemma ResultTold<F>(ru: Rules<F>, before: Items, inner: Items, after: Items, n: Numeral<F>, p: int)
    requires Gives(ru, inner, n)
    requires var s := Inside(ru, before).text; p == |s| + SignSize(n) - Leading(s, Blank)
    ensures p in CalcResolve.Places(Inside(ru, Body(before, inner, after)))
    ensures Inside(ru, before).derived == [] == Inside(ru, after).derived
            ==> CalcResolve.Places(Inside(ru, Body(before, inner, after))) == {p}
  {
    LocalOfBody(ru, before, inner, after);
    ClosedNotes(ru, inner, n);
    ClosedBegins(ru, inner, n);
    PlaceAmong(Inside(ru, before), CalcResolve.Closed(EngineOf(ru), true, CalcResolve.Empty(), Inside(ru, inner)),
               Inside(ru, after), SignSize(n), p);
  }

  lemma ClosedBegins<F>(ru: Rules<F>, inner: Items, n: Numeral<F>)
    requires Gives(ru, inner, n)
    ensures var t := CalcResolve.Closed(EngineOf(ru), true, CalcResolve.Empty(), Inside(ru, inner)).text;
            t != "" && !Blank(t[0])
  {
    LeavesNumeral(ru, inner, n);
    assert "" + Left(ru, inner) == Left(ru, inner);
  }

  /** What is told of one note c among others. */
  lemma PlaceAmong<F>(b: Local<F>, c: Local<F>, a: Local<F>, at: nat, p: int)
    requires c.derived == [at] && c.text != "" && !Blank(c.text[0]) && p == |b.text| + at - Leading(b.text, Blank)
    ensures var l := CalcResolveFacts.After(CalcResolveFacts.After(b, c), a);
            p in CalcResolve.Places(l) && (b.derived == [] == a.derived ==> CalcResolve.Places(l) == {p})
  {
    var l := CalcResolveFacts.After(CalcResolveFacts.After(b, c), a);
    LeadingAround(b.text, c.text, a.text);
    NoteAfter(b, c, a, at);
    NotedIsTold(l.derived, |b.derived|, Leading(b.text, Blank), p);
    if b.derived == [] == a.derived {
      OneNote(b, c, a, at);
      OnePlace(|b.text| + at, Leading(b.text, Blank), p);
    }
  }

  lemma LeadingAround(pre: string, p: string, post: string)
    requires p != "" && !Blank(p[0])
    ensures Leading(pre + p + post, Blank) == Leading(pre, Blank)
  {
    ConcatAssociates(pre, p, post);
    assert (p + post)[0] == p[0];
    LeadingKeeps(pre, p + post, Blank);
  }

  lemma PlaceInText<F>(ru: Rules<F>, before: Items, n: Numeral<F>, p: int)
    requires p == ToldPlace(ru, before, n)
    ensures var s := Inside(ru, before).text; p == |s| + SignSize(n) - Leading(s, Blank)
  {
  }

  lemma NotedIsTold(noted: seq<int>, k: nat, origin: int, p: int)
    requires k < |noted| && p == noted[k] - origin
    ensures p in CalcResolve.Relative(noted, origin)
  {
  }

  /** And where no other set-up gives a result, nowhere else. */
  lemma OnlyPlaceTold<F>(ru: Rules<F>, before: Items, inner: Items, after: Items, n: Numeral<F>)
    requires Gives(ru, inner, n) && Inside(ru, before).derived == [] == Inside(ru, after).derived
    ensures CalcResolve.Places(Inside(ru, Body(before, inner, after))) == {ToldPlace(ru, before, n)}
  {
    OnlyTold(ru, before, inner, after, n, ToldPlace(ru, before, n));
  }

  lemma OnlyTold<F>(ru: Rules<F>, before: Items, inner: Items, after: Items, n: Numeral<F>, p: int)
    requires Gives(ru, inner, n) && Inside(ru, before).derived == [] == Inside(ru, after).derived
    requires p == ToldPlace(ru, before, n)
    ensures CalcResolve.Places(Inside(ru, Body(before, inner, after))) == {p}
  {
    PlaceInText(ru, before, n, p);
    ResultTold(ru, before, inner, after, n, p);
  }

  lemma OneNote<F>(b: Local<F>, c: Local<F>, a: Local<F>, at: int)
    requires b.derived == [] == a.derived && c.derived == [at]
    ensures CalcResolveFacts.After(CalcResolveFacts.After(b, c), a).derived == [|b.text| + at]
  {
  }

  lemma OnePlace(x: int, origin: int, p: int)
    requires p == x - origin
    ensures CalcResolve.Relative([x], origin) == {p}
  {
    assert [x][0] - origin == p;
  }

  lemma InsideBytes<F>(ru: Rules<F>, s: string)
    ensures Inside(ru, CalcResolveFacts.Bytes(s)) == CalcResolve.Local(s, [], [])
  {
    CalcResolveFacts.BytesStay(EngineOf(ru), s, true, CalcResolve.Empty<F, Used<F>>());
    assert "" + s == s;
  }

  /** A carriage return before the inner set-up hides the mark: the only place told is one too far. */
  lemma ReturnHidesMark<F>(ru: Rules<F>, inner: Items, n: Numeral<F>)
    requires Gives(ru, inner, n)
    ensures var before := CalcResolveFacts.Bytes("\r");
            NumberPlace(ru, before, n) !in CalcResolve.Places(Inside(ru, Body(before, inner, [])))
  {
    var before := CalcResolveFacts.Bytes("\r");
    InsideBytes(ru, "\r");
    OnlyPlaceTold(ru, before, inner, [], n);
  }

  /** White space of two bytes that opens a set-up and is trimmed off the expression, but not where places
      are counted from. */
  predicate Skews(w: string) { LeadingSpace(w) == |w| == 2 && Leading(w, Blank) == 0 }

  /** Two carriage returns, U+0085, a no-break space. */
  lemma OpeningsThatSkew()
    ensures Skews("\r\r") && Skews("\U{C2}\U{85}") && Skews("\U{C2}\U{A0}")
  {
    assert "\r\r"[1..] == "\r" && "\r"[1..] == "";
    assert "\U{C2}\U{85}"[2..] == "" && "\U{C2}\U{A0}"[2..] == "";
    assert LeadingSpace("\r") == 1;
  }

  /** After such an opening w the wrong operand is marked: with a result d of one digit, <<w<<d>>+2>> reports
      the 2 that was typed as derived, and the d as typed. */
  lemma WrongOperandMarked<F(!new)>(ru: Rules<F>, rd: Reader<F>, w: string, inner: Items, n: Numeral<F>, two: F)
    requires Skews(w) && Gives(ru, inner, n) && !n.negative && |n.figure| == 1 && ReadsBy(ru.scan, rd)
    requires Figure(n.figure) && ReadNumber(rd, n.figure) == Some(n.value) && ReadNumber(rd, "2") == Some(two)
    ensures CalcOf(ru, Body(CalcResolveFacts.Bytes(w), inner, CalcResolveFacts.Bytes("+2"))).operands
            == [Used(CalcOperands.Operand(n.figure, n.value, 0), false), Used(CalcOperands.Operand("2", two, 2), true)]
  {
    SkewedExpression(ru, w, inner, n);
    SkewedPlace(ru, w, inner, n);
    DigitPlusTwo(ru.scan, rd, n, two);
    TwoOperands(ru, n.figure + "+2", n, two);
    CalcIs(ru, Body(CalcResolveFacts.Bytes(w), inner, CalcResolveFacts.Bytes("+2")));
  }

  lemma SkewedExpression<F>(ru: Rules<F>, w: string, inner: Items, n: Numeral<F>)
    requires Skews(w) && Gives(ru, inner, n) && !n.negative
    ensures CalcResolve.Expression(Inside(ru, Body(CalcResolveFacts.Bytes(w), inner, CalcResolveFacts.Bytes("+2"))))
            == n.figure + "+2"
  {
    var before, after := CalcResolveFacts.Bytes(w), CalcResolveFacts.Bytes("+2");
    SkewedEnds(ru, w);
    LeavesNumeral(ru, inner, n);
    ExpressionOfBody(ru, before, inner, after);
    assert "" + n.figure + "+2" == n.figure + "+2";
  }

  lemma SkewedEnds<F>(ru: Rules<F>, w: string)
    requires Skews(w)
    ensures Head(ru, CalcResolveFacts.Bytes(w)) == "" && Tail(ru, CalcResolveFacts.Bytes("+2")) == "+2"
  {
    InsideBytes(ru, w);
    InsideBytes(ru, "+2");
  }

  lemma SkewedPlace<F>(ru: Rules<F>, w: string, inner: Items, n: Numeral<F>)
    requires Skews(w) && Gives(ru, inner, n) && !n.negative
    ensures CalcResolve.Places(Inside(ru, Body(CalcResolveFacts.Bytes(w), inner, CalcResolveFacts.Bytes("+2")))) == {2}
  {
    InsideBytes(ru, w);
    InsideBytes(ru, "+2");
    OnlyPlaceTold(ru, CalcResolveFacts.Bytes(w), inner, CalcResolveFacts.Bytes("+2"), n);
    assert Head(ru, CalcResolveFacts.Bytes(w)) == "";
  }

  lemma DigitPlusTwo<F(!new)>(scan: Scanner<F>, rd: Reader<F>, n: Numeral<F>, two: F)
    requires ReadsBy(scan, rd) && !n.negative && |n.figure| == 1
    requires Figure(n.figure) && ReadNumber(rd, n.figure) == Some(n.value) && ReadNumber(rd, "2") == Some(two)
    ensures Tokens(scan, n.figure + "+2") == Some([Num(n.value, n.figure, 0), Op(Plus), Num(two, "2", 2)])
  {
    FiguresAreScanned(scan, rd, n);
    PlusTwo(scan, rd, two);
    DigitThenPlus(scan, n, two);
    AsciiIs(n.figure + "+2");
  }

  lemma DigitThenPlus<F(!new)>(scan: Scanner<F>, n: Numeral<F>, two: F)
    requires Scanned(scan, n) && |n.figure| == 1 && Lex(scan, "+2", 1) == Some([Op(Plus), Num(two, "2", 2)])
    ensures Lex(scan, n.figure + "+2", 0) == Some([Num(n.value, n.figure, 0), Op(Plus), Num(two, "2", 2)])
  {
    FigureIsRead(scan, n, "+2", 0);
    assert [Num(n.value, n.figure, 0)] + [Op(Plus), Num(two, "2", 2)]
        == [Num(n.value, n.figure, 0), Op(Plus), Num(two, "2", 2)];
  }

  lemma PlusTwo<F(!new)>(scan: Scanner<F>, rd: Reader<F>, two: F)
    requires ReadsBy(scan, rd) && ReadNumber(rd, "2") == Some(two)
    ensures Lex(scan, "+2", 1) == Some([Op(Plus), Num(two, "2", 2)])
  {
    var n := Numeral(false, "2", two);
    DigitsAreNumber("2");
    FiguresAreScanned(scan, rd, n);
    FigureIsRead(scan, n, "", 2);
    assert "2" + "" == "2" && "+" + "2" == "+2";
    PlusFirst(scan, rd);
    FirstThenRest(scan, "+", "2", 1, Piece(Op(Plus), 1));
    assert [Op(Plus)] + ([Num(two, "2", 2)] + []) == [Op(Plus), Num(two, "2", 2)];
  }

  lemma PlusFirst<F>(scan: Scanner<F>, rd: Reader<F>)
    requires ReadsBy(scan, rd)
    ensures scan("+2", 1) == Some(Piece(Op(Plus), 1))
  {
    assert scan("+2", 1) == FirstToken(rd, "+2", 1);
  }

  lemma TwoOperands<F>(ru: Rules<F>, expr: string, n: Numeral<F>, two: F)
    requires Tokens(ru.scan, expr) == Some([Num(n.value, n.figure, 0), Op(Plus), Num(two, "2", 2)])
    ensures Calculate(ru, expr, {2}).operands
            == [Used(CalcOperands.Operand(n.figure, n.value, 0), false), Used(CalcOperands.Operand("2", two, 2), true)]
  {
    var toks := [Num(n.value, n.figure, 0), Op(Plus), Num(two, "2", 2)];
    assert "" + n.figure == n.figure && "" + "2" == "2";
    assert CalcOperands.OperandAt(ru.ar, toks, 0) == CalcOperands.Operand(n.figure, n.value, 0);
    assert CalcOperands.OperandAt(ru.ar, toks, 2) == CalcOperands.Operand("2", two, 2);
    assert CalcOperands.OperandsIn(ru.ar, toks, 1) == [CalcOperands.OperandAt(ru.ar, toks, 0)];
    assert CalcOperands.OperandsIn(ru.ar, toks, 2) == CalcOperands.OperandsIn(ru.ar, toks, 1);
    assert CalcOperands.OperandsIn(ru.ar, toks, 3)
        == [CalcOperands.Operand(n.figure, n.value, 0), CalcOperands.Operand("2", two, 2)];
  }

  /** A currency sign before the inner set-up hides the mark too: in <<$<<d>>>> the operand begins at the
      sign, and the place told is that of the digits. */
  lemma CurrencyHidesMark<F(!new)>(ru: Rules<F>, rd: Reader<F>, inner: Items, n: Numeral<F>)
    requires Gives(ru, inner, n) && !n.negative && ReadsBy(ru.scan, rd)
    requires Figure(n.figure) && ReadNumber(rd, n.figure) == Some(n.value)
    ensures CalcOf(ru, Body(CalcResolveFacts.Bytes("$"), inner, [])).operands
            == [Used(CalcOperands.Operand("$" + n.figure, n.value, 0), false)]
  {
    DollarExpression(ru, inner, n);
    DollarPlace(ru, inner, n);
    DollarToken(ru.scan, rd, n);
    OneOperand(ru, "$" + n.figure, Num(n.value, "$" + n.figure, 0), {1});
    CalcIs(ru, Body(CalcResolveFacts.Bytes("$"), inner, []));
  }

  lemma CalcIs<F>(ru: Rules<F>, items: Items)
    ensures CalcOf(ru, items)
            == Calculate(ru, CalcResolve.Expression(Inside(ru, items)), CalcResolve.Places(Inside(ru, items)))
  {
  }

  lemma DollarExpression<F>(ru: Rules<F>, inner: Items, n: Numeral<F>)
    requires Gives(ru, inner, n) && !n.negative
    ensures CalcResolve.Expression(Inside(ru, Body(CalcResolveFacts.Bytes("$"), inner, []))) == "$" + n.figure
  {
    InsideBytes(ru, "$");
    LeavesNumeral(ru, inner, n);
    ExpressionOfBody(ru, CalcResolveFacts.Bytes("$"), inner, []);
    assert Head(ru, CalcResolveFacts.Bytes("$")) == "$" && Tail(ru, []) == "";
    assert "$" + n.figure + "" == "$" + n.figure;
  }

  lemma DollarPlace<F>(ru: Rules<F>, inner: Items, n: Numeral<F>)
    requires Gives(ru, inner, n) && !n.negative
    ensures CalcResolve.Places(Inside(ru, Body(CalcResolveFacts.Bytes("$"), inner, []))) == {1}
  {
    InsideBytes(ru, "$");
    OnlyPlaceTold(ru, CalcResolveFacts.Bytes("$"), inner, [], n);
    assert Head(ru, CalcResolveFacts.Bytes("$")) == "$";
  }

  lemma DollarToken<F(!new)>(scan: Scanner<F>, rd: Reader<F>, n: Numeral<F>)
    requires ReadsBy(scan, rd) && Figure(n.figure) && ReadNumber(rd, n.figure) == Some(n.value)
    ensures Tokens(scan, "$" + n.figure) == Some([Num(n.value, "$" + n.figure, 0)])
  {
    DollarIsCurrency();
    AmountIsScanned(scan, rd, n, "$", false);
    assert Amount("$", n.figure, false) == "$" + n.figure;
    OneToken(scan, Numeral(n.negative, "$" + n.figure, n.value));
  }

  lemma DollarIsCurrency()
    ensures IsCurrency("$")
  {
  }

  lemma OneToken<F(!new)>(scan: Scanner<F>, n: Numeral<F>)
    requires Scanned(scan, n) && AsciiOnly(n.figure)
    ensures Tokens(scan, n.figure) == Some([Num(n.value, n.figure, 0)])
  {
    FigureIsRead(scan, n, "", 0);
    AsciiIs(n.figure);
    assert n.figure + "" == n.figure;
    JoinNothing(Some([Num(n.value, n.figure, 0)]));
  }

  lemma OneOperand<F>(ru: Rules<F>, expr: string, t: Token<F>, at: set<int>)
    requires Tokens(ru.scan, expr) == Some([t]) && t.Num?
    ensures Calculate(ru, expr, at).operands == [Used(CalcOperands.Operand(t.text, t.value, t.pos), t.pos in at)]
  {
    assert "" + t.text == t.text;
    assert CalcOperands.OperandAt(ru.ar, [t], 0) == CalcOperands.Operand(t.text, t.value, t.pos);
    assert CalcOperands.OperandsIn(ru.ar, [t], 1) == [CalcOperands.OperandAt(ru.ar, [t], 0)];
  }
}
