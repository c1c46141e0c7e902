/** One character's frame: respawn, steering, jump, gravity, the two
    axis-separated collision passes against the solids, the hazard check and
    gem collection. */
module Physics {
  import opened Geometry
  import opened LevelGrid

  /** The input sampled for one character in one frame: direction keys held
      and the jump key pressed this frame (an edge, not a level). */
  datatype Input = Input(left: bool, right: bool, jumpPressed: bool)

  datatype Player = Player(
    rect: Rect,
    vel: Vec,
    spawn: Vec,
    onGround: bool,
    alive: bool,
    gemsCollected: int)

  /** The character a level starts with, and a restart returns to. */
  function AtSpawn(spawn: Vec): Player
  {
    Player(Rect(spawn.x, spawn.y, PLAYER_WIDTH, PLAYER_HEIGHT), Vec(0.0, 0.0), spawn, false, true, 0)
  }

  /** The frame time actually integrated: long frames are cut to MAX_DT. */
  function ClampDt(frameTime: real): (dt: real)
    ensures dt <= MAX_DT
    ensures frameTime <= MAX_DT ==> dt == frameTime
    ensures frameTime > MAX_DT ==> dt == MAX_DT
  {
    if frameTime > MAX_DT then MAX_DT else frameTime
  }

  // ---------------------------------------------------------------------
  // The stages before the collision passes
  // ---------------------------------------------------------------------

  /** A dead character comes back at its spawn, at rest, alive and not
      grounded; a living one is untouched. */
  function Respawn(p: Player): (q: Player)
    ensures q.alive
    ensures p.alive ==> q == p
    ensures !p.alive ==> q.rect.x == p.spawn.x && q.rect.y == p.spawn.y && q.vel == Vec(0.0, 0.0) && !q.onGround
    ensures q.spawn == p.spawn && q.gemsCollected == p.gemsCollected
    ensures q.rect.width == p.rect.width && q.rect.height == p.rect.height
  {
    if p.alive then p
    else p.(rect := p.rect.(x := p.spawn.x, y := p.spawn.y), vel := Vec(0.0, 0.0), alive := true, onGround := false)
  }

  /** The horizontal velocity chosen by the direction keys. */
  function HorizontalSpeed(left: bool, right: bool): (vx: real)
    ensures vx == 0.0 <==> left == right
    ensures vx == -MOVE_SPEED <==> left && !right
    ensures vx == MOVE_SPEED <==> right && !left
  {
    var desired := 0.0;
    var desired' := if left then desired - MOVE_SPEED else desired;
    if right then desired' + MOVE_SPEED else desired'
  }

  /** Horizontal velocity is set from input, not accumulated. */
  function Steer(p: Player, input: Input): (q: Player)
    ensures q.vel.x == HorizontalSpeed(input.left, input.right)
    ensures q == p.(vel := q.vel) && q.vel.y == p.vel.y
  {
    p.(vel := p.vel.(x := HorizontalSpeed(input.left, input.right)))
  }

  /** An edge-triggered jump: it launches only when pressed while grounded. */
  function Jump(p: Player, jumpPressed: bool): (q: Player)
    ensures q.vel.y == if jumpPressed && p.onGround then -JUMP_FORCE else p.vel.y
    ensures q.onGround == (p.onGround && !jumpPressed)
    ensures q == p.(vel := q.vel, onGround := q.onGround) && q.vel.x == p.vel.x
  {
    if jumpPressed && p.onGround then p.(vel := p.vel.(y := -JUMP_FORCE), onGround := false) else p
  }

  /** Gravity over dt, with the fall speed capped. */
  function Fall(p: Player, dt: real): (q: Player)
    ensures q.vel.y <= MAX_FALL_SPEED
    ensures q.vel.y == p.vel.y + GRAVITY * dt || q.vel.y == MAX_FALL_SPEED
    ensures p.vel.y + GRAVITY * dt <= MAX_FALL_SPEED ==> q.vel.y == p.vel.y + GRAVITY * dt
    ensures q == p.(vel := q.vel) && q.vel.x == p.vel.x
  {
    var vy := p.vel.y + GRAVITY * dt;
    p.(vel := p.vel.(y := if vy > MAX_FALL_SPEED then MAX_FALL_SPEED else vy))
  }

  // ---------------------------------------------------------------------
  // Collision passes
  // ---------------------------------------------------------------------

  /** Pushing r out of s along X, against the direction of travel. */
  function PushX(r: Rect, vx: real, s: Rect): (q: Rect)
    ensures q.y == r.y && q.width == r.width && q.height == r.height
    ensures vx > 0.0 ==> q.x + q.width == s.x - SKIN && !Overlaps(q, s)
    ensures vx < 0.0 ==> q.x == s.x + s.width + SKIN && !Overlaps(q, s)
    ensures vx == 0.0 ==> q == r
  {
    if vx > 0.0 then r.(x := s.x - r.width - SKIN)
    else if vx < 0.0 then r.(x := s.x + s.width + SKIN)
    else r
  }

  /** Pushing r out of s along Y: a falling body lands on top of s, a
      rising one stops under it. */
  function PushY(r: Rect, vy: real, s: Rect): (q: Rect)
    ensures q.x == r.x && q.width == r.width && q.height == r.height
    ensures vy > 0.0 ==> q.y + q.height == s.y - SKIN && !Overlaps(q, s)
    ensures vy < 0.0 ==> q.y == s.y + s.height + SKIN && !Overlaps(q, s)
    ensures vy == 0.0 ==> q == r
  {
    if vy > 0.0 then r.(y := s.y - r.height - SKIN)
    else if vy < 0.0 then r.(y := s.y + s.height + SKIN)
    else r
  }

  /** What the X pass does. Only the first overlapped solid moves the body:
      its push zeroes vel.x, so every later overlap meets a zero velocity. */
  function PassX(p: Player, solids: seq<Rect>): Player
  {
    var k := FirstOverlap(p.rect, solids);
    if k == |solids| then p
    else p.(rect := PushX(p.rect, p.vel.x, solids[k]), vel := p.vel.(x := 0.0))
  }

  /** What the Y pass does: as the X pass, and grounded is false without an
      overlap, set by a downward push, and otherwise left as it was. */
  function PassY(p: Player, solids: seq<Rect>): Player
  {
    var k := FirstOverlap(p.rect, solids);
    if k == |solids| then p.(onGround := false)
    else
      p.(rect := PushY(p.rect, p.vel.y, solids[k]), vel := p.vel.(y := 0.0),
         onGround := p.onGround || p.vel.y > 0.0)
  }

  /** The X pass leaves a body that overlaps no solid untouched; otherwise
      some solid it overlaps, the first in list order, sets where it ends:
      a moving body is pushed clear of that solid against its motion and
      the horizontal velocity becomes zero. */
  lemma PassXResult(p: Player, solids: seq<Rect>)
    ensures !OverlapsAny(p.rect, solids) ==> PassX(p, solids) == p
    ensures OverlapsAny(p.rect, solids) ==>
      exists k :: 0 <= k < |solids| && Overlaps(p.rect, solids[k]) &&
        (forall j :: 0 <= j < k ==> !Overlaps(p.rect, solids[j])) &&
        PassX(p, solids) == p.(rect := PushX(p.rect, p.vel.x, solids[k]), vel := p.vel.(x := 0.0))
  {
    FirstOverlapFindsAny(p.rect, solids);
  }

  /** After the Y pass the body is grounded exactly when it overlapped some
      solid and was either falling or already grounded; a falling body that
      hit a solid lands on the first one, vertical velocity zero. */
  lemma PassYResult(p: Player, solids: seq<Rect>)
    ensures PassY(p, solids).onGround <==> OverlapsAny(p.rect, solids) && (p.onGround || p.vel.y > 0.0)
    ensures !OverlapsAny(p.rect, solids) ==> PassY(p, solids) == p.(onGround := false)
    ensures OverlapsAny(p.rect, solids) ==>
      exists k :: 0 <= k < |solids| && Overlaps(p.rect, solids[k]) &&
        (forall j :: 0 <= j < k ==> !Overlaps(p.rect, solids[j])) &&
        PassY(p, solids) == p.(rect := PushY(p.rect, p.vel.y, solids[k]), vel := p.vel.(y := 0.0),
                               onGround := p.onGround || p.vel.y > 0.0) &&
        (p.vel.y > 0.0 ==> PassY(p, solids).rect.y + p.rect.height == solids[k].y - SKIN) &&
        (p.vel.y != 0.0 ==> !Overlaps(PassY(p, solids).rect, solids[k]))
  {
    FirstOverlapFindsAny(p.rect, solids);
  }

  /** The X pass as the source runs it: every solid in order. */
  method ResolveX(p: Player, solids: seq<Rect>) returns (q: Player)
    ensures q == PassX(p, solids)
  {
    q := p;
    ghost var found := false;
    ghost var k := 0;
    for i := 0 to |solids|
      invariant !found ==> q == p && forall j :: 0 <= j < i ==> !Overlaps(p.rect, solids[j])
      invariant found ==> k < i && Overlaps(p.rect, solids[k]) && (forall j :: 0 <= j < k ==> !Overlaps(p.rect, solids[j]))
      invariant found ==> q == p.(rect := PushX(p.rect, p.vel.x, solids[k]), vel := p.vel.(x := 0.0))
    {
      var s := solids[i];
      if Overlaps(q.rect, s) {
        if q.vel.x > 0.0 {
          q := q.(rect := q.rect.(x := s.x - q.rect.width - SKIN));
        } else if q.vel.x < 0.0 {
          q := q.(rect := q.rect.(x := s.x + s.width + SKIN));
        }
        q := q.(vel := q.vel.(x := 0.0));
        if !found {
          found, k := true, i;
        }
      }
    }
  }

  /** The Y pass as the source runs it, with its collision flag. */
  method ResolveY(p: Player, solids: seq<Rect>) returns (q: Player)
    ensures q == PassY(p, solids)
  {
    q := p;
    var collidedY := false;
    ghost var k := 0;
    for i := 0 to |solids|
      invariant !collidedY ==> q == p && forall j :: 0 <= j < i ==> !Overlaps(p.rect, solids[j])
      invariant collidedY ==> k < i && Overlaps(p.rect, solids[k]) && (forall j :: 0 <= j < k ==> !Overlaps(p.rect, solids[j]))
      invariant collidedY ==>
        q == p.(rect := PushY(p.rect, p.vel.y, solids[k]), vel := p.vel.(y := 0.0),
                onGround := p.onGround || p.vel.y > 0.0)
    {
      var s := solids[i];
      if Overlaps(q.rect, s) {
        if !collidedY {
          k := i;
        }
        collidedY := true;
        if q.vel.y > 0.0 {
          q := q.(rect := q.rect.(y := s.y - q.rect.height - SKIN), onGround := true);
        } else if q.vel.y < 0.0 {
          q := q.(rect := q.rect.(y := s.y + s.height + SKIN));
        }
        q := q.(vel := q.vel.(y := 0.0));
      }
    }
    if !collidedY {
      q := q.(onGround := false);
    }
  }

  /** The hazard scan: stops at the first hazard tile the body overlaps. */
  method TouchesAny(r: Rect, tiles: seq<Rect>) returns (hit: bool)
    ensures hit <==> OverlapsAny(r, tiles)
  {
    for i := 0 to |tiles|
      invariant forall j :: 0 <= j < i ==> !Overlaps(r, tiles[j])
    {
      if Overlaps(r, tiles[i]) {
        return true;
      }
    }
    return false;
  }

  // ---------------------------------------------------------------------
  // Gems
  // ---------------------------------------------------------------------

  /** A gem the character collects now: still there, overlapped, and of the
      character's colour (red for fire, blue for water). */
  predicate Eligible(g: Gem, r: Rect, isFire: bool)
  {
    !g.collected && Overlaps(r, g.rect) && g.isRed == isFire
  }

  /** The gems after collection by a character whose body is r. */
  function Collect(gs: seq<Gem>, r: Rect, isFire: bool): (gs': seq<Gem>)
    ensures |gs'| == |gs|
    ensures forall i :: 0 <= i < |gs| ==>
      gs'[i].rect == gs[i].rect && gs'[i].isRed == gs[i].isRed &&
      (gs'[i].collected <==> gs[i].collected || Eligible(gs[i], r, isFire))
  {
    seq(|gs|, i requires 0 <= i < |gs| => if Eligible(gs[i], r, isFire) then gs[i].(collected := true) else gs[i])
  }

  /** How many gems a character whose body is r collects now. */
  function EligibleCount(gs: seq<Gem>, r: Rect, isFire: bool): nat
  {
    if |gs| == 0 then 0
    else EligibleCount(gs[..|gs| - 1], r, isFire) + (if Eligible(gs[|gs| - 1], r, isFire) then 1 else 0)
  }

  /** How many gems of a colour have been collected. */
  function CollectedCount(gs: seq<Gem>, red: bool): nat
  {
    if |gs| == 0 then 0
    else CollectedCount(gs[..|gs| - 1], red) + (if gs[|gs| - 1].collected && gs[|gs| - 1].isRed == red then 1 else 0)
  }

  /** The gem loop: flips the eligible gems and counts them. */
  method CollectGems(gs: seq<Gem>, r: Rect, isFire: bool) returns (gs': seq<Gem>, n: nat)
    ensures gs' == Collect(gs, r, isFire)
    ensures n == EligibleCount(gs, r, isFire)
  {
    gs', n := gs, 0;
    for i := 0 to |gs|
      invariant |gs'| == |gs|
      invariant forall j :: 0 <= j < i ==> gs'[j] == Collect(gs, r, isFire)[j]
      invariant forall j :: i <= j < |gs| ==> gs'[j] == gs[j]
      invariant n == EligibleCount(gs[..i], r, isFire)
    {
      assert gs[..i + 1][..i] == gs[..i];
      var g := gs'[i];
      if !g.collected && Overlaps(r, g.rect) {
        if (g.isRed && isFire) || (!g.isRed && !isFire) {
          gs' := gs'[i := g.(collected := true)];
          n := n + 1;
        }
      }
    }
    assert gs[..|gs|] == gs;
  }

  /** Collection raises the collected count of the character's colour by
      exactly the number of gems it flips, and leaves the other colour's. */
  lemma {:induction false} CollectCounts(gs: seq<Gem>, r: Rect, isFire: bool)
    ensures CollectedCount(Collect(gs, r, isFire), isFire) == CollectedCount(gs, isFire) + EligibleCount(gs, r, isFire)
    ensures CollectedCount(Collect(gs, r, isFire), !isFire) == CollectedCount(gs, !isFire)
  {
    if |gs| > 0 {
      var front := gs[..|gs| - 1];
      CollectCounts(front, r, isFire);
      assert Collect(gs, r, isFire)[..|gs| - 1] == Collect(front, r, isFire);
    }
  }

  /** A second collection at the same place flips nothing: a gem counts once
      however long the character stays on it. */
  lemma {:induction false} CollectExhausts(gs: seq<Gem>, r: Rect, isFire: bool)
    ensures EligibleCount(Collect(gs, r, isFire), r, isFire) == 0
  {
    if |gs| > 0 {
      var front := gs[..|gs| - 1];
      CollectExhausts(front, r, isFire);
      assert Collect(gs, r, isFire)[..|gs| - 1] == Collect(front, r, isFire);
    }
  }

  /** With no gem collected the count of either colour is zero. */
  lemma {:induction false} NoneCollected(gs: seq<Gem>, red: bool)
    requires forall i :: 0 <= i < |gs| ==> !gs[i].collected
    ensures CollectedCount(gs, red) == 0
  {
    if |gs| > 0 {
      NoneCollected(gs[..|gs| - 1], red);
    }
  }

  // ---------------------------------------------------------------------
  // The whole frame of one character
  // ---------------------------------------------------------------------

  /** The distance covered in dt at speed v. The product is kept behind
      this function so that the proofs about movement, which never need its
      value, do not hand the solver a nonlinear term over reals. */
  function Travel(v: real, dt: real): real
  {
    v * dt
  }

  /** The character after respawn, steering, jump, gravity and both
      collision passes. */
  function Moved(p: Player, input: Input, dt: real, solids: seq<Rect>): (m: Player)
    ensures m.alive && m.spawn == p.spawn && m.gemsCollected == p.gemsCollected
    ensures m.rect.width == p.rect.width && m.rect.height == p.rect.height
    ensures m.vel.x == 0.0 || m.vel.x == HorizontalSpeed(input.left, input.right)
    ensures m.vel.y <= MAX_FALL_SPEED
  {
    var q := Fall(Jump(Steer(Respawn(p), input), input.jumpPressed), dt);
    var px := PassX(q.(rect := q.rect.(x := q.rect.x + Travel(q.vel.x, dt))), solids);
    PassY(px.(rect := px.rect.(y := px.rect.y + Travel(px.vel.y, dt))), solids)
  }

  /** One character's frame: movement, then the hazard check, which ends
      the frame with the character dead, then gem collection. Returns the
      character and the gems. */
  function Step(p: Player, isFire: bool, input: Input, dt: real, solids: seq<Rect>,
                hazards: seq<Rect>, gems: seq<Gem>): (r: (Player, seq<Gem>))
    ensures var m := Moved(p, input, dt, solids);
      r.0 == m.(alive := r.0.alive, gemsCollected := r.0.gemsCollected)
    ensures !r.0.alive <==> OverlapsAny(r.0.rect, hazards)
    ensures !r.0.alive ==> r.1 == gems && r.0.gemsCollected == p.gemsCollected
    ensures r.0.gemsCollected - p.gemsCollected == CollectedCount(r.1, isFire) - CollectedCount(gems, isFire)
    ensures CollectedCount(r.1, !isFire) == CollectedCount(gems, !isFire)
    ensures r.0.alive ==> r.1 == Collect(gems, r.0.rect, isFire)
    ensures r.0.alive ==> r.0.gemsCollected == p.gemsCollected + EligibleCount(gems, r.0.rect, isFire)
  {
    var m := Moved(p, input, dt, solids);
    if OverlapsAny(m.rect, hazards) then (m.(alive := false), gems)
    else
      CollectCounts(gems, m.rect, isFire);
      (m.(gemsCollected := m.gemsCollected + EligibleCount(gems, m.rect, isFire)), Collect(gems, m.rect, isFire))
  }

  /** Movement as the source runs it: the stages in order, each loop pass
      against the solids in list order. */
  method MovePlayer(p: Player, input: Input, dt: real, solids: seq<Rect>) returns (q: Player)
    ensures q == Moved(p, input, dt, solids)
  {
    q := Respawn(p);
    q := Steer(q, input);
    q := Jump(q, input.jumpPressed);
    q := Fall(q, dt);
    q := q.(rect := q.rect.(x := q.rect.x + Travel(q.vel.x, dt)));
    q := ResolveX(q, solids);
    q := q.(rect := q.rect.(y := q.rect.y + Travel(q.vel.y, dt)));
    q := ResolveY(q, solids);
  }

  /** The per-character update as the source runs it: movement, the hazard
      scan returning early with the character dead, else the gem loop. */
  method StepPlayer(p: Player, isFire: bool, input: Input, dt: real, solids: seq<Rect>,
                    hazards: seq<Rect>, gems: seq<Gem>) returns (q: Player, gems': seq<Gem>)
    ensures (q, gems') == Step(p, isFire, input, dt, solids, hazards, gems)
  {
    q := MovePlayer(p, input, dt, solids);
    gems' := gems;
    var hit := TouchesAny(q.rect, hazards);
    if hit {
      q := q.(alive := false);
      return;
    }
    var n;
    gems', n := CollectGems(gems, q.rect, isFire);
    q := q.(gemsCollected := q.gemsCollected + n);
  }
}
