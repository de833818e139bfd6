/**
 Reading items off an octet stream that arrives in pieces. The two wire formats of the
 server (RouterOS API words, and its own framed messages) are both instances.
 */
module Lexing {
  import opened Octets

  /**
   Why reading has stopped for good, if it has: a first octet that no length starts with, an
   assertion of the reader that fails, or a body that is too long.
   */
  datatype Reason = Nothing | Rejected | Broken | TooLong

  /** The item at the front of a stream: not all here yet, unreadable, or `used` octets long. */
  datatype Item<T> = Short | Stuck(why: Reason) | Take(item: T, used: nat)

  /** The items read, the unread rest, and the reason if reading has stopped for good. */
  datatype Lexed<T> = Lexed(items: seq<T>, rest: Octets, stopped: bool, why: Reason)
  {
    function After(earlier: seq<T>): Lexed<T> {
      this.(items := earlier + items)
    }
  }

  type Reader<!T> = Octets -> Item<T>

  /** Every item takes up some of the octets that are there. */
  ghost predicate Advances<T>(next: Reader<T>) {
    forall s :: next(s).Take? ==> 0 < next(s).used <= |s|
  }

  /** A verdict about the front of a stream does not change when more octets arrive. */
  ghost predicate Stable<T(!new)>(next: Reader<T>) {
    forall s, t {:trigger next(s + t)} :: !next(s).Short? ==> next(s + t) == next(s)
  }

  ghost function Lex<T>(next: Reader<T>, s: Octets): Lexed<T>
    requires Advances(next)
    decreases |s|
  {
    match next(s)
    case Short => Lexed([], s, false, Nothing)
    case Stuck(why) => Lexed([], s, true, why)
    case Take(item, used) => Lex(next, s[used..]).After([item])
  }

  /** What a reading becomes when more octets arrive. */
  ghost function Resume<T>(next: Reader<T>, p: Lexed<T>, more: Octets): Lexed<T>
    requires Advances(next)
  {
    if p.stopped then p.(rest := p.rest + more)
    else Lex(next, p.rest + more).After(p.items)
  }

  lemma AfterAfter<T>(p: Lexed<T>, earlier: seq<T>, earliest: seq<T>)
    ensures p.After(earlier).After(earliest) == p.After(earliest + earlier)
    ensures p.After([]) == p
  {
    assert earliest + (earlier + p.items) == earliest + earlier + p.items;
  }

  lemma ResumeAfter<T>(next: Reader<T>, p: Lexed<T>, earlier: seq<T>, more: Octets)
    requires Advances(next)
    ensures Resume(next, p.After(earlier), more) == Resume(next, p, more).After(earlier)
  {
    if !p.stopped {
      AfterAfter(Lex(next, p.rest + more), p.items, earlier);
    }
  }

  /** Chunking does not matter: reading a + b is reading a, then resuming with b. */
  lemma {:induction false} LexResumes<T(!new)>(next: Reader<T>, a: Octets, b: Octets)
    requires Advances(next) && Stable(next)
    ensures Lex(next, a + b) == Resume(next, Lex(next, a), b)
    decreases |a|
  {
    var item := next(a);
    if item.Short? {
      AfterAfter(Lex(next, a + b), [], []);
    } else {
      assert next(a + b) == item;
      if item.Take? {
        assert (a + b)[item.used..] == a[item.used..] + b;
        LexResumes(next, a[item.used..], b);
        ResumeAfter(next, Lex(next, a[item.used..]), [item.item], b);
      }
    }
  }

  /** Items already read stay as they are. */
  lemma ItemsGrow<T(!new)>(next: Reader<T>, a: Octets, b: Octets)
    requires Advances(next) && Stable(next)
    ensures Lex(next, a).items <= Lex(next, a + b).items
  {
    LexResumes(next, a, b);
  }

  /** When what is unread and what arrives make up exactly one item, that item is read. */
  lemma LexOne<T(!new)>(next: Reader<T>, a: Octets, b: Octets)
    requires Advances(next) && Stable(next) && !Lex(next, a).stopped
    ensures var p, s := Lex(next, a), Lex(next, a).rest + b;
      match next(s)
      case Short => Lex(next, a + b) == p.(rest := s)
      case Stuck(why) => Lex(next, a + b) == p.(rest := s, stopped := true, why := why)
      case Take(item, used) => used == |s| && next([]).Short? ==>
        Lex(next, a + b) == p.(items := p.items + [item], rest := [], why := Nothing)
  {
    LexResumes(next, a, b);
    var p := Lex(next, a);
    var s := p.rest + b;
    LexWhy(next, a);
    match next(s)
    case Short => assert p.items + [] == p.items;
    case Stuck(_) => assert p.items + [] == p.items;
    case Take(item, used) =>
      if used == |s| && next([]).Short? {
        assert s[used..] == [];
        assert Lex(next, s).items == [item];
      }
  }

  lemma {:induction false} LexWhy<T>(next: Reader<T>, s: Octets)
    requires Advances(next) && !Lex(next, s).stopped
    ensures Lex(next, s).why == Nothing
    decreases |s|
  {
    if next(s).Take? {
      LexWhy(next, s[next(s).used..]);
    }
  }

  // ----- writing items, and reading them back -----

  ghost function Emit<T>(write: T -> Octets, items: seq<T>): Octets {
    if items == [] then [] else write(items[0]) + Emit(write, items[1..])
  }

  lemma {:induction false} EmitAppend<T>(write: T -> Octets, a: seq<T>, b: seq<T>)
    ensures Emit(write, a + b) == Emit(write, a) + Emit(write, b)
  {
    if a == [] {
      assert a + b == b;
    } else {
      assert (a + b)[1..] == a[1..] + b;
      EmitAppend(write, a[1..], b);
    }
  }

  lemma EmitOne<T>(write: T -> Octets, x: T)
    ensures Emit(write, [x]) == write(x)
  {
    assert Emit(write, [x]) == write([x][0]) + Emit(write, [x][1..]);
  }

  lemma EmitUpTo<T>(write: T -> Octets, start: Octets, items: seq<T>, i: nat)
    requires i < |items|
    ensures start + Emit(write, items[..i + 1]) == start + Emit(write, items[..i]) + write(items[i])
  {
    var last := [items[i]];
    assert items[..i + 1] == items[..i] + last;
    EmitAppend(write, items[..i], last);
    EmitOne(write, items[i]);
  }

  /** `next` reads back what `write` wrote for x exactly when x is good, whatever follows. */
  ghost predicate ReadsBack<T(!new)>(next: Reader<T>, write: T -> Octets, good: T -> bool) {
    forall x, t {:trigger next(write(x) + t)} ::
      if good(x) then next(write(x) + t) == Take(x, |write(x)|)
      else !(next(write(x) + t).Take? && next(write(x) + t).item == x)
  }

  ghost predicate All<T>(good: T -> bool, items: seq<T>) {
    forall x <- items :: good(x)
  }

  /** Reading a written list gives the list back and goes on with what follows it. */
  lemma {:induction false} ReadEmitted<T(!new)>(
      next: Reader<T>, write: T -> Octets, good: T -> bool, items: seq<T>, tail: Octets)
    requires Advances(next) && ReadsBack(next, write, good) && All(good, items)
    ensures Lex(next, Emit(write, items) + tail) == Lex(next, tail).After(items)
  {
    if items == [] {
      assert Emit(write, items) + tail == tail;
      AfterAfter(Lex(next, tail), [], []);
    } else {
      var x, rest := items[0], Emit(write, items[1..]) + tail;
      var s := write(x) + rest;
      assert Emit(write, items) + tail == s;
      assert next(s) == Take(x, |write(x)|);
      assert s[|write(x)|..] == rest;
      ReadEmitted(next, write, good, items[1..], tail);
      AfterAfter(Lex(next, tail), items[1..], [x]);
      assert [x] + items[1..] == items;
    }
  }

  /** A list with an item that does not read back is not what a reader gets out of it. */
  lemma {:induction false} ReadMisses<T(!new)>(
      next: Reader<T>, write: T -> Octets, good: T -> bool, items: seq<T>)
    requires Advances(next) && ReadsBack(next, write, good) && !All(good, items)
    ensures Lex(next, Emit(write, items)).items != items
  {
    var x, rest := items[0], Emit(write, items[1..]);
    var s := write(x) + rest;
    assert Emit(write, items) == s;
    var first := next(s);
    if good(x) {
      assert first == Take(x, |write(x)|) && s[|write(x)|..] == rest;
      ReadMisses(next, write, good, items[1..]);
      assert Lex(next, s).items[1..] == Lex(next, rest).items;
    } else {
      assert !(first.Take? && first.item == x);
    }
  }

  /** What is written for an item tells the item, whatever follows. */
  ghost predicate Distinguishes<T(!new)>(write: T -> Octets, good: T -> bool) {
    && (forall x :: good(x) ==> write(x) != [])
    && forall x, t, y, u {:trigger write(x) + t, write(y) + u} ::
         good(x) && good(y) && write(x) + t == write(y) + u ==> x == y
  }

  lemma EmitEmpty<T(!new)>(write: T -> Octets, good: T -> bool, items: seq<T>)
    requires Distinguishes(write, good) && All(good, items)
    ensures Emit(write, items) == [] <==> items == []
  {
    if items != [] {
      assert good(items[0]) && write(items[0]) != [];
    }
  }

  lemma {:induction false} EmitInjective<T(!new)>(write: T -> Octets, good: T -> bool, a: seq<T>, b: seq<T>)
    requires Distinguishes(write, good) && All(good, a) && All(good, b)
    requires Emit(write, a) == Emit(write, b)
    ensures a == b
  {
    EmitEmpty(write, good, a);
    EmitEmpty(write, good, b);
    if a != [] && b != [] {
      var t, u := Emit(write, a[1..]), Emit(write, b[1..]);
      assert good(a[0]) && good(b[0]);
      assert write(a[0]) + t == write(b[0]) + u;
      assert t == (write(a[0]) + t)[|write(a[0])|..];
      assert u == (write(b[0]) + u)[|write(b[0])|..];
      EmitInjective(write, good, a[1..], b[1..]);
      assert a == [a[0]] + a[1..] && b == [b[0]] + b[1..];
    }
  }
}
