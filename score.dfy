/** The score counter of `Scoreboard`; its label image is drawing only. */
module Score {

  class Scoreboard {
    var score: int

    /** `Scoreboard.__init__`: the score starts at zero. */
    constructor ()
      ensures score == 0
    {
      score := 0;
    }

    /** `Scoreboard.update` */
    method Update(s: int)
      modifies this
      ensures score == s
    {
      score := s;
    }

    /** `Scoreboard.reset` */
    method Reset()
      modifies this
      ensures score == 0
    {
      Update(0);
    }

    /** `Scoreboard.increment_score` */
    method IncrementScore()
      modifies this
      ensures score == old(score) + 1
    {
      Update(score + 1);
    }
  }
}
