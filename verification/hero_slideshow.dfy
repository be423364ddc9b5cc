/** The hero slideshow: the current slide index over a fixed table of seven slides,
    moved forward by the interval tick and by the next button, backward by the
    previous button, and set directly by the progress indicators. */
module HeroSlideshow {

  datatype Slide = Slide(src: string, alt: string)

  const Slides: seq<Slide> := [
    Slide("pic_one.png", "Professional Business Meeting"),
    Slide("pic_two.png", "Global Partnership"),
    Slide("pic_three.png", "Team Collaboration"),
    Slide("pic_four.png", "Strategic Planning"),
    Slide("pic_five.png", "International Growth"),
    Slide("pic_six.png", "Innovation Excellence"),
    Slide("pic_seven.jpg", "Leadership Vision")
  ]

  /** JavaScript's `%`: the remainder takes the sign of the dividend. */
  function JsRem(a: int, n: int): int
    requires n > 0
  {
    if a >= 0 then a % n else -((-a) % n)
  }

  /** `(prev + 1) % slides.length` */
  function Next(i: int): int {
    JsRem(i + 1, |Slides|)
  }

  /** `(prev - 1 + slides.length) % slides.length` */
  function Previous(i: int): int {
    JsRem(i - 1 + |Slides|, |Slides|)
  }

  predicate InRange(i: int) {
    0 <= i < |Slides|
  }

  /** From a slide in range, both moves stay in range, `Next` wraps from the last slide
      to the first and `Previous` from the first to the last. */
  lemma MovesStayInRange(i: int)
    requires InRange(i)
    ensures InRange(Next(i)) && InRange(Previous(i))
    ensures Next(i) == if i == |Slides| - 1 then 0 else i + 1
    ensures Previous(i) == if i == 0 then |Slides| - 1 else i - 1
  {
  }

  /** The two moves undo each other, in either order. */
  lemma MovesAreInverse(i: int)
    requires InRange(i)
    ensures Previous(Next(i)) == i
    ensures Next(Previous(i)) == i
  {
    MovesStayInRange(i);
  }

  /** `k` ticks of the interval. */
  function Advance(i: int, k: nat): int
    decreases k
  {
    if k == 0 then i else Advance(Next(i), k - 1)
  }

  /** `k` ticks from a slide in range land `k` slides further on, modulo the table. */
  lemma {:induction false} AdvanceIsModular(i: int, k: nat)
    requires InRange(i)
    ensures Advance(i, k) == (i + k) % |Slides|
    decreases k
  {
    if k > 0 {
      MovesStayInRange(i);
      AdvanceIsModular(Next(i), k - 1);
      assert Next(i) == (i + 1) % |Slides|;
      assert ((i + 1) % |Slides| + (k - 1)) % |Slides| == (i + k) % |Slides|;
    }
  }

  /** A full round of ticks comes back to the start. */
  lemma FullRoundReturns(i: int)
    requires InRange(i)
    ensures Advance(i, |Slides|) == i
  {
    AdvanceIsModular(i, |Slides|);
  }

  class Slideshow {
    var current: int

    constructor ()
      ensures current == 0 && InRange(current)
    {
      current := 0;
    }

    method GoToNext()
      modifies this
      ensures current == Next(old(current))
      ensures old(InRange(current)) ==> InRange(current)
    {
      if InRange(current) {
        MovesStayInRange(current);
      }
      current := JsRem(current + 1, |Slides|);
    }

    method GoToPrevious()
      modifies this
      ensures current == Previous(old(current))
      ensures old(InRange(current)) ==> InRange(current)
    {
      if InRange(current) {
        MovesStayInRange(current);
      }
      current := JsRem(current - 1 + |Slides|, |Slides|);
    }

    /** The interval tick: the same move as the next button. */
    method Tick()
      modifies this
      ensures current == Next(old(current))
      ensures old(InRange(current)) ==> InRange(current)
    {
      GoToNext();
    }

    /** A progress indicator click, which passes the indicator's own position. */
    method SetCurrent(index: int)
      modifies this
      ensures current == index
    {
      current := index;
    }
  }
}
