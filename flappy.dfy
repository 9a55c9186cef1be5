/** Flappy Bird of src/components/FlappyBird.jsx: integer physics, pipe
    scrolling with once-only scoring, pipe spawning and the collision test. */
module Flappy {

  const W: int := 400
  const H: int := 600
  const BIRD: int := 20
  const GRAV: int := 1
  const FLAP: int := -12
  const PIPE_W: int := 60
  const GAP: int := 200
  const SPEED: int := 5
  const DIST: int := 200
  /** The bird's fixed left edge. */
  const BIRD_X: int := 50

  /** A pipe: left edge x, top of the gap y, and whether it has been scored. */
  datatype Pipe = Pipe(x: int, y: int, passed: bool)

  /** A pipe that scores on this tick: not yet passed, and its right edge
      moves left of the bird. */
  predicate Crosses(p: Pipe) {
    !p.passed && p.x - SPEED + PIPE_W < BIRD_X
  }

  /** One tick of one pipe: five pixels left, marked passed when it crosses.
      The flag is never cleared and is set by exactly the crossing tick. */
  function Advance(p: Pipe): (q: Pipe)
    ensures q.x == p.x - SPEED && q.y == p.y
    ensures p.passed ==> q.passed
    ensures (!p.passed && q.passed) <==> Crosses(p)
  {
    Pipe(p.x - SPEED, p.y, p.passed || Crosses(p))
  }

  predicate OnScreen(p: Pipe) {
    p.x + PIPE_W > 0
  }

  /** The pipe list after a tick: every pipe advanced, those that left the
      screen dropped, the order kept. */
  function Scroll(ps: seq<Pipe>): seq<Pipe>
    decreases |ps|
  {
    if ps == [] then []
    else
      var q := Advance(ps[|ps| - 1]);
      Scroll(ps[..|ps| - 1]) + (if OnScreen(q) then [q] else [])
  }

  /** The number of pipes that score on this tick. */
  function Crossings(ps: seq<Pipe>): nat
    decreases |ps|
  {
    if ps == [] then 0
    else Crossings(ps[..|ps| - 1]) + (if Crosses(ps[|ps| - 1]) then 1 else 0)
  }

  /** The scrolled list holds exactly the advanced pipes that are still on
      screen. */
  lemma {:induction false} ScrollMembers(ps: seq<Pipe>)
    decreases |ps|
    ensures forall q :: q in Scroll(ps) <==> exists p :: p in ps && q == Advance(p) && OnScreen(q)
  {
    if ps != [] {
      var init := ps[..|ps| - 1];
      ScrollMembers(init);
      assert ps == init + [ps[|ps| - 1]];
    }
  }

  /** A pipe as the game keeps it: gap inside the screen, still on screen,
      and scored exactly when its right edge is left of the bird. */
  predicate WellPlaced(p: Pipe) {
    && 50 <= p.y < H - GAP - 50
    && OnScreen(p)
    && (p.passed <==> p.x + PIPE_W < BIRD_X)
  }

  predicate AllWellPlaced(ps: seq<Pipe>) {
    forall i :: 0 <= i < |ps| ==> WellPlaced(ps[i])
  }

  /** Later pipes lie more than 2 * DIST to the right of earlier ones. */
  predicate Spaced(ps: seq<Pipe>) {
    forall i, j :: 0 <= i < j < |ps| ==> ps[i].x + 2 * DIST < ps[j].x
  }

  /** Scrolling keeps every pipe well placed. */
  lemma ScrollKeepsPlaced(ps: seq<Pipe>)
    requires AllWellPlaced(ps)
    ensures AllWellPlaced(Scroll(ps))
  {
    ScrollMembers(ps);
    forall k | 0 <= k < |Scroll(ps)| ensures WellPlaced(Scroll(ps)[k]) {
      var q := Scroll(ps)[k];
      assert q in Scroll(ps);
      var p :| p in ps && q == Advance(p) && OnScreen(q);
      var m :| 0 <= m < |ps| && ps[m] == p;
      assert WellPlaced(ps[m]);
    }
  }

  /** Every pipe of the scrolled list comes from one of ps, moved by SPEED. */
  lemma ScrolledFrom(ps: seq<Pipe>, q: Pipe) returns (m: nat)
    requires q in Scroll(ps)
    ensures m < |ps| && q.x == ps[m].x - SPEED
  {
    ScrollMembers(ps);
    var p :| p in ps && q == Advance(p) && OnScreen(q);
    m :| m < |ps| && ps[m] == p;
  }

  /** Scrolling keeps the list spaced. */
  lemma {:induction false} ScrollKeepsSpaced(ps: seq<Pipe>)
    requires Spaced(ps)
    decreases |ps|
    ensures Spaced(Scroll(ps))
  {
    if ps != [] {
      var init := ps[..|ps| - 1];
      var last := ps[|ps| - 1];
      assert Spaced(init);
      ScrollKeepsSpaced(init);
      var s := Scroll(init);
      var q := Advance(last);
      if OnScreen(q) {
        assert Scroll(ps) == s + [q];
        forall k | 0 <= k < |s| ensures s[k].x + 2 * DIST < q.x {
          var m := ScrolledFrom(init, s[k]);
          assert init[m] == ps[m];
        }
      }
    }
  }

  /** Scrolling keeps every pipe well placed and the list spaced. */
  lemma ScrollKeeps(ps: seq<Pipe>)
    requires AllWellPlaced(ps) && Spaced(ps)
    ensures AllWellPlaced(Scroll(ps)) && Spaced(Scroll(ps))
  {
    ScrollKeepsPlaced(ps);
    ScrollKeepsSpaced(ps);
  }

  /** Of two or more spaced pipes on screen, the last one is too far right
      to score. */
  lemma LastOfSeveralDoesNotCross(ps: seq<Pipe>)
    requires AllWellPlaced(ps) && Spaced(ps) && |ps| >= 2
    ensures !Crosses(ps[|ps| - 1])
  {
    assert WellPlaced(ps[0]);
  }

  /** With the pipes spaced as the game keeps them, at most one pipe scores
      on any tick. */
  lemma {:induction false} CrossingsAtMostOne(ps: seq<Pipe>)
    requires AllWellPlaced(ps) && Spaced(ps)
    decreases |ps|
    ensures Crossings(ps) <= 1
  {
    if ps != [] {
      var init := ps[..|ps| - 1];
      if |ps| >= 2 {
        LastOfSeveralDoesNotCross(ps);
      }
      if !Crosses(ps[|ps| - 1]) {
        assert AllWellPlaced(init) && Spaced(init);
        CrossingsAtMostOne(init);
      }
    }
  }

  /** A new pipe is due when there is none or the last one is left of W - DIST. */
  predicate NeedsPipe(ps: seq<Pipe>) {
    |ps| == 0 || ps[|ps| - 1].x < W - DIST
  }

  /** createPipe; gapDraw is Math.floor(Math.random() * (H - GAP - 100)). */
  function CreatePipe(gapDraw: int): (p: Pipe)
    requires 0 <= gapDraw < H - GAP - 100
    ensures p.x == W + DIST && !p.passed
    ensures 50 <= p.y < H - GAP - 50
    ensures 0 <= p.y && p.y + GAP <= H
  {
    Pipe(W + DIST, gapDraw + 50, false)
  }

  /** Spawning a due pipe keeps every pipe well placed and the list spaced. */
  lemma SpawnKeeps(ps: seq<Pipe>, gapDraw: int)
    requires AllWellPlaced(ps) && Spaced(ps) && NeedsPipe(ps)
    requires 0 <= gapDraw < H - GAP - 100
    ensures AllWellPlaced(ps + [CreatePipe(gapDraw)]) && Spaced(ps + [CreatePipe(gapDraw)])
  {
    if |ps| > 0 {
      assert forall i :: 0 <= i < |ps| ==> ps[i].x <= ps[|ps| - 1].x;
    }
  }

  /** The bird overlaps the pipe horizontally and is outside its gap. */
  predicate HitsPipe(birdY: int, p: Pipe) {
    p.x < BIRD_X + BIRD && p.x + PIPE_W > BIRD_X && (birdY < p.y || birdY + BIRD > p.y + GAP)
  }

  /** pipes.some(...) of the collision test. */
  function AnyHit(birdY: int, ps: seq<Pipe>): (r: bool)
    ensures r <==> exists i :: 0 <= i < |ps| && HitsPipe(birdY, ps[i])
  {
    if ps == [] then false
    else HitsPipe(birdY, ps[0]) || AnyHit(birdY, ps[1..])
  }

  /** The round ends: bird below the floor, above the ceiling, or in a pipe. */
  predicate Collides(birdY: int, ps: seq<Pipe>) {
    birdY + BIRD > H || birdY < 0 || AnyHit(birdY, ps)
  }

  /** The bird's height after n ticks without a flap. */
  function BirdAfter(y: int, v: int, n: nat): int
    decreases n
  {
    if n == 0 then y else BirdAfter(y + v, v + GRAV, n - 1)
  }

  /** Without a flap the bird falls along y + n*v + n*(n-1)/2. */
  lemma {:induction false} FallClosedForm(y: int, v: int, n: nat)
    decreases n
    ensures 2 * BirdAfter(y, v, n) == 2 * y + 2 * n * v + n * (n - 1)
  {
    if n > 0 {
      FallClosedForm(y + v, v + GRAV, n - 1);
      assert 2 * (n - 1) * (v + 1) == 2 * n * v + 2 * n - 2 * v - 2;
      assert (n - 1) * (n - 2) == n * (n - 1) - 2 * (n - 1);
    }
  }

  class Game {
    var birdY: int
    var vel: int
    var pipes: seq<Pipe>
    var score: nat
    var high: int
    var over: bool
    var started: bool
    var showCongrats: bool

    ghost predicate Valid()
      reads this
    {
      AllWellPlaced(pipes) && Spaced(pipes)
    }

    /** The initial state; storedHigh stands for the saved best score. */
    constructor (storedHigh: int)
      ensures Valid() && birdY == H / 2 && vel == 0 && pipes == [] && score == 0 && high == storedHigh
      ensures !over && !started && !showCongrats
    {
      birdY := H / 2;
      vel := 0;
      pipes := [];
      score := 0;
      high := storedHigh;
      over := false;
      started := false;
      showCongrats := false;
    }

    /** The start button. */
    method Start()
      modifies this
      ensures started
      ensures birdY == old(birdY) && vel == old(vel) && pipes == old(pipes) && score == old(score)
      ensures high == old(high) && over == old(over) && showCongrats == old(showCongrats)
    {
      started := true;
    }

    /** flap (Space or a click): velocity -12, only while running. */
    method Flap()
      modifies this
      ensures vel == if old(started) && !old(over) then FLAP else old(vel)
      ensures birdY == old(birdY) && pipes == old(pipes) && score == old(score) && high == old(high)
      ensures over == old(over) && started == old(started) && showCongrats == old(showCongrats)
    {
      if started && !over {
        vel := FLAP;
      }
    }

    /** One interval tick (lines 54-69), running only while started and not
        over: the bird moves by the pre-tick velocity, gravity adds one, the
        pipes scroll, and the score grows by the number of pipes that cross,
        which is at most one. */
    method Tick()
      requires Valid()
      modifies this
      ensures Valid()
      ensures over == old(over) && started == old(started) && high == old(high) && showCongrats == old(showCongrats)
      ensures !old(started) || old(over) ==>
                birdY == old(birdY) && vel == old(vel) && pipes == old(pipes) && score == old(score)
      ensures old(started) && !old(over) ==>
                && birdY == old(birdY) + old(vel) && vel == old(vel) + GRAV
                && pipes == Scroll(old(pipes))
                && score == old(score) + Crossings(old(pipes))
                && score <= old(score) + 1
    {
      if !started || over {
        return;
      }
      ScrollKeeps(pipes);
      CrossingsAtMostOne(pipes);
      birdY := birdY + vel;
      vel := vel + GRAV;
      var next: seq<Pipe> := [];
      var gained: nat := 0;
      var i := 0;
      while i < |pipes|
        invariant 0 <= i <= |pipes|
        invariant next == Scroll(pipes[..i])
        invariant gained == Crossings(pipes[..i])
      {
        assert pipes[..i + 1][..i] == pipes[..i];
        var p := pipes[i];
        var moved := Pipe(p.x - SPEED, p.y, p.passed);
        if !p.passed && moved.x + PIPE_W < BIRD_X {
          gained := gained + 1;
          moved := moved.(passed := true);
        }
        if moved.x + PIPE_W > 0 {
          next := next + [moved];
        }
        i := i + 1;
      }
      assert pipes[..i] == pipes;
      score := score + gained;
      pipes := next;
    }

    /** The spawn and collision effect (lines 73-92), running after every
        change while started and not over. It appends a new pipe when one is
        due, and tests the collision against the pipes as they were before
        that append. On a collision the round ends and the best score is
        replaced, with the banner shown, only if the score beats it. gapDraw
        is the random part of createPipe. */
    method Settle(gapDraw: int)
      requires Valid() && 0 <= gapDraw < H - GAP - 100
      modifies this
      ensures Valid()
      ensures birdY == old(birdY) && vel == old(vel) && score == old(score) && started == old(started)
      ensures high >= old(high)
      ensures !old(started) || old(over) ==>
                pipes == old(pipes) && over == old(over) && high == old(high) && showCongrats == old(showCongrats)
      ensures old(started) && !old(over) ==>
                && pipes == old(pipes) + (if NeedsPipe(old(pipes)) then [CreatePipe(gapDraw)] else [])
                && over == Collides(old(birdY), old(pipes))
                && high == (if over && old(score) > old(high) then old(score) else old(high))
                && showCongrats == (old(showCongrats) || (over && old(score) > old(high)))
    {
      if !started || over {
        return;
      }
      var seen := pipes;
      if NeedsPipe(pipes) {
        SpawnKeeps(pipes, gapDraw);
        pipes := pipes + [CreatePipe(gapDraw)];
      }
      if Collides(birdY, seen) {
        over := true;
        if score > high {
          high := score;
          showCongrats := true;
        }
      }
    }

    /** restart: everything but the best score back to the initial state. */
    method Restart()
      modifies this
      ensures Valid() && birdY == H / 2 && vel == 0 && pipes == [] && score == 0 && high == old(high)
      ensures !over && !started && !showCongrats
    {
      birdY := H / 2;
      vel := 0;
      pipes := [];
      score := 0;
      over := false;
      started := false;
      showCongrats := false;
    }
  }
}
