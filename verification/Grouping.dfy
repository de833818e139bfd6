/** Sentences are runs of words, each closed by a terminator. */
module Grouping {

  datatype Piece<W> = Text(word: seq<W>) | Terminator

  /** The sentences completed by a list of pieces, and the words after the last of them. */
  datatype Grouped<W> = Grouped(done: seq<seq<seq<W>>>, words: seq<seq<W>>)

  function AddPiece<W>(g: Grouped<W>, p: Piece<W>): Grouped<W> {
    match p
    case Text(w) => g.(words := g.words + [w])
    case Terminator => Grouped(g.done + [g.words], [])
  }

  function Group<W>(ps: seq<Piece<W>>): Grouped<W> {
    if ps == [] then Grouped([], []) else AddPiece(Group(ps[..|ps| - 1]), ps[|ps| - 1])
  }

  function Texts<W>(ws: seq<seq<W>>): seq<Piece<W>> {
    if ws == [] then [] else Texts(ws[..|ws| - 1]) + [Text(ws[|ws| - 1])]
  }

  function Pieces<W>(ss: seq<seq<seq<W>>>): seq<Piece<W>> {
    if ss == [] then [] else Pieces(ss[..|ss| - 1]) + Texts(ss[|ss| - 1]) + [Terminator]
  }

  lemma TextsSnoc<W>(ws: seq<seq<W>>, w: seq<W>)
    ensures Texts(ws + [w]) == Texts(ws) + [Text(w)]
  {
    assert (ws + [w])[..|ws|] == ws;
  }

  lemma PiecesSnoc<W>(ss: seq<seq<seq<W>>>, s: seq<seq<W>>)
    ensures Pieces(ss + [s]) == Pieces(ss) + Texts(s) + [Terminator]
  {
    assert (ss + [s])[..|ss|] == ss;
  }

  lemma GroupSnoc<W>(ps: seq<Piece<W>>, p: Piece<W>)
    ensures Group(ps + [p]) == AddPiece(Group(ps), p)
  {
    assert (ps + [p])[..|ps|] == ps;
  }

  lemma Reassociate<T>(a: seq<T>, b: seq<T>, c: seq<T>)
    ensures a + (b + c) == a + b + c
    ensures a + b + [] == a + b
  {
  }

  /** Grouping loses nothing. */
  lemma {:induction false} UngroupGroup<W>(ps: seq<Piece<W>>)
    ensures Pieces(Group(ps).done) + Texts(Group(ps).words) == ps
  {
    if ps != [] {
      var init, last := ps[..|ps| - 1], ps[|ps| - 1];
      var g := Group(init);
      UngroupGroup(init);
      assert init + [last] == ps;
      Reassociate(Pieces(g.done), Texts(g.words), [last]);
      match last
      case Text(w) => TextsSnoc(g.words, w);
      case Terminator => PiecesSnoc(g.done, g.words);
    }
  }

  lemma {:induction false} GroupTexts<W>(ps: seq<Piece<W>>, ws: seq<seq<W>>)
    requires Group(ps).words == []
    ensures Group(ps + Texts(ws)) == Group(ps).(words := ws)
  {
    if ws == [] {
      assert ps + [] == ps;
    } else {
      var init, last := ws[..|ws| - 1], ws[|ws| - 1];
      GroupTexts(ps, init);
      GroupSnoc(ps + Texts(init), Text(last));
      Reassociate(ps, Texts(init), [Text(last)]);
      assert init + [last] == ws;
    }
  }

  lemma {:induction false} GroupPieces<W>(ss: seq<seq<seq<W>>>)
    ensures Group(Pieces(ss)) == Grouped(ss, [])
  {
    if ss != [] {
      var init, last := ss[..|ss| - 1], ss[|ss| - 1];
      GroupPieces(init);
      GroupTexts(Pieces(init), last);
      GroupSnoc(Pieces(init) + Texts(last), Terminator);
      assert init + [last] == ss;
    }
  }

  /** The texts among the pieces are exactly the words of the sentences. */
  lemma {:induction false} TextsInPieces<W>(ss: seq<seq<seq<W>>>, w: seq<W>)
    ensures Text(w) in Pieces(ss) <==> exists s <- ss :: w in s
  {
    if ss != [] {
      var init, last := ss[..|ss| - 1], ss[|ss| - 1];
      TextsInPieces(init, w);
      TextsAreWords(last, w);
      assert ss == init + [last];
      assert Text(w) in Pieces(ss) <==> Text(w) in Pieces(init) || w in last;
    }
  }

  lemma {:induction false} TextsAreWords<W>(ws: seq<seq<W>>, w: seq<W>)
    ensures Text(w) in Texts(ws) <==> w in ws
    ensures Terminator !in Texts(ws)
  {
    if ws != [] {
      var init, last := ws[..|ws| - 1], ws[|ws| - 1];
      TextsAreWords(init, w);
      assert ws == init + [last];
    }
  }

  /** Later pieces only add sentences. */
  lemma {:induction false} GroupGrows<W>(ps: seq<Piece<W>>, more: seq<Piece<W>>)
    ensures Group(ps).done <= Group(ps + more).done
  {
    if more == [] {
      assert ps + more == ps;
    } else {
      var init, last := more[..|more| - 1], more[|more| - 1];
      GroupGrows(ps, init);
      GroupSnoc(ps + init, last);
      assert ps + init + [last] == ps + more;
    }
  }
}
