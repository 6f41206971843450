/** Projectiles ("poops"): creation by the spawner, per-frame movement, removal
    outside the padded viewport and the bounding-box test against the player
    (script.js:53-57, 134-163). */
module Projectiles {
  import opened Rules

  const MaxPoops: nat := 10
  /** Side length of the square projectile box. */
  const PoopSize: real := 32.0
  /** Padding around the viewport: spawn rows lie on it, removal happens beyond it. */
  const Margin: real := 50.0
  const PoopBaseSpeed: real := 2.0
  const PoopSpeedVariation: real := 2.0

  datatype Poop = Poop(x: real, y: real, vx: real, vy: real)

  /** One frame of straight-line motion. */
  function Move(p: Poop): Poop
  {
    p.(x := p.x + p.vx, y := p.y + p.vy)
  }

  /** Beyond the viewport padded by Margin on some side. */
  predicate OutOfBounds(p: Poop, width: real, height: real)
  {
    p.x < -Margin || p.x > width + Margin || p.y < -Margin || p.y > height + Margin
  }

  /** Strict overlap test between the projectile box and the player box at (px, py). */
  function Collides(p: Poop, px: real, py: real): (r: bool)
    // a collision always has a common point: the centre of the two boxes' intersection
    ensures r ==> var cx := (Max(p.x, px) + Min(p.x + PoopSize, px + PlayerWidth)) / 2.0;
                  var cy := (Max(p.y, py) + Min(p.y + PoopSize, py + PlayerHeight)) / 2.0;
                  Inside(cx, cy, p.x, p.y, PoopSize, PoopSize) && Inside(cx, cy, px, py, PlayerWidth, PlayerHeight)
  {
    p.x < px + PlayerWidth && p.x + PoopSize > px && p.y < py + PlayerHeight && p.y + PoopSize > py
  }

  /** (cx, cy) lies in the open rectangle with top-left corner (left, top). */
  predicate Inside(cx: real, cy: real, left: real, top: real, w: real, h: real)
  {
    left < cx < left + w && top < cy < top + h
  }

  function Min(a: real, b: real): real { if a <= b then a else b }
  function Max(a: real, b: real): real { if a <= b then b else a }

  /** The collision test holds exactly when the two open boxes share a point, so
      boxes that only touch along an edge do not collide. */
  lemma CollidesIffOverlap(p: Poop, px: real, py: real)
    ensures Collides(p, px, py) <==>
              exists cx, cy :: Inside(cx, cy, p.x, p.y, PoopSize, PoopSize) && Inside(cx, cy, px, py, PlayerWidth, PlayerHeight)
    ensures p.x == px + PlayerWidth || p.x + PoopSize == px || p.y == py + PlayerHeight || p.y + PoopSize == py ==>
              !Collides(p, px, py)
  {
    // the witness point for a collision is the one Collides' own contract names
  }

  /** The spawn row: above the canvas or below it, by Margin. */
  function SpawnY(coin: real, height: real): real
  {
    if coin < 0.5 then -Margin else height + Margin
  }

  /** A new projectile. `u`, `coin` and `spread` stand for the three draws of the
      random source, each in [0, 1); (dirX, dirY) is the cosine and sine of the
      aiming angle, computed by the caller. */
  function NewPoop(u: real, coin: real, spread: real, dirX: real, dirY: real, width: real, height: real): (p: Poop)
    requires 0.0 <= u < 1.0 && 0.0 <= coin < 1.0 && 0.0 <= spread < 1.0
    ensures p.y == -Margin || p.y == height + Margin
    ensures coin < 0.5 ==> p.y == -Margin
    ensures 0.5 <= coin ==> p.y == height + Margin
    ensures 0.0 < width ==> 0.0 <= p.x < width
    // the speed lies in [2, 4)
    ensures dirX * dirX + dirY * dirY == 1.0 ==> 4.0 <= p.vx * p.vx + p.vy * p.vy < 16.0
  {
    var x := u * width;
    var speed := PoopBaseSpeed + spread * PoopSpeedVariation;
    assert 0.0 < width ==> x < width by {
      if 0.0 < width { NegativeProduct(width, u - 1.0); }
    }
    SpeedSquared(speed, dirX, dirY);
    Poop(x, SpawnY(coin, height), dirX * speed, dirY * speed)
  }

  lemma SpeedSquared(s: real, dx: real, dy: real)
    requires 2.0 <= s < 4.0
    ensures dx * dx + dy * dy == 1.0 ==> 4.0 <= (dx * s) * (dx * s) + (dy * s) * (dy * s) < 16.0
  {
    assert (dx * s) * (dx * s) + (dy * s) * (dy * s) == (dx * dx + dy * dy) * (s * s);
    assert 4.0 <= s * s < 16.0 by {
      assert 2.0 * 2.0 <= s * 2.0 <= s * s;
      assert s * s < 4.0 * s < 16.0;
    }
  }

  // ---------------------------------------------------------------------------
  // One frame of updatePoops: forEach over the array while splice removes from it.
  // After a removal at index i the next element slides into slot i, which the
  // iteration has already passed, so that element is skipped for the frame.

  /** The projectiles left after one frame. */
  function Survivors(o: seq<Poop>, width: real, height: real): (r: seq<Poop>)
    ensures |r| <= |o|
    decreases |o|
  {
    if |o| == 0 then []
    else
      var p := Move(o[0]);
      if OutOfBounds(p, width, height) then
        if |o| == 1 then [] else [o[1]] + Survivors(o[2..], width, height)
      else
        [p] + Survivors(o[1..], width, height)
  }

  /** Whether some projectile visited in that frame hits the player box at (px, py);
      the test is made on the moved projectile, also when it was just removed. */
  function Hits(o: seq<Poop>, width: real, height: real, px: real, py: real): (r: bool)
    // an empty list never hits; the first projectile is always visited, so its overlap always hits
    ensures |o| == 0 ==> !r
    ensures 0 < |o| && Collides(Move(o[0]), px, py) ==> r
    decreases |o|
  {
    if |o| == 0 then false
    else
      var p := Move(o[0]);
      Collides(p, px, py) ||
      if OutOfBounds(p, width, height) then
        |o| >= 2 && Hits(o[2..], width, height, px, py)
      else
        Hits(o[1..], width, height, px, py)
  }

  /** What the frame will keep, seen from the loop just before it visits index i
      of the live array s: the slots already passed, then what the rest yields.
      Past the end (after the last element was spliced out) it is the array itself. */
  function Pending(s: seq<Poop>, i: nat, width: real, height: real): seq<Poop>
  {
    if i <= |s| then s[..i] + Survivors(s[i..], width, height) else s
  }

  /** Whether the part of the frame still ahead of index i hits the player. */
  predicate HitAhead(s: seq<Poop>, i: nat, width: real, height: real, px: real, py: real)
  {
    i <= |s| && Hits(s[i..], width, height, px, py)
  }

  /** The live array after the loop visits index i: the moved projectile is written
      back, and spliced out if it left the padded viewport. */
  function Visit(s: seq<Poop>, i: nat, width: real, height: real): seq<Poop>
    requires i < |s|
  {
    var t := s[i := Move(s[i])];
    if OutOfBounds(Move(s[i]), width, height) then t[..i] + t[i + 1..] else t
  }

  /** One step of the forEach loop changes neither what the frame keeps nor whether it hits. */
  lemma {:induction false} VisitStep(s: seq<Poop>, i: nat, width: real, height: real, px: real, py: real)
    requires i < |s|
    ensures Pending(Visit(s, i, width, height), i + 1, width, height) == Pending(s, i, width, height)
    ensures HitAhead(s, i, width, height, px, py) <==>
              Collides(Move(s[i]), px, py) || HitAhead(Visit(s, i, width, height), i + 1, width, height, px, py)
  {
    if OutOfBounds(Move(s[i]), width, height) {
      VisitRemoved(s, i, width, height, px, py);
    } else {
      VisitKept(s, i, width, height, px, py);
    }
  }

  lemma {:induction false} VisitKept(s: seq<Poop>, i: nat, width: real, height: real, px: real, py: real)
    requires i < |s| && !OutOfBounds(Move(s[i]), width, height)
    ensures var t := s[i := Move(s[i])];
            && s[..i] + Survivors(s[i..], width, height) == t[..i + 1] + Survivors(t[i + 1..], width, height)
            && (Hits(s[i..], width, height, px, py) <==> Collides(Move(s[i]), px, py) || Hits(t[i + 1..], width, height, px, py))
  {
    var p := Move(s[i]);
    var t := s[i := p];
    var u := s[i..];
    assert u[0] == s[i] && u[1..] == s[i + 1..] == t[i + 1..];
    assert Survivors(u, width, height) == [p] + Survivors(u[1..], width, height);
    assert t[..i + 1] == s[..i] + [p];
  }

  lemma {:induction false} VisitRemoved(s: seq<Poop>, i: nat, width: real, height: real, px: real, py: real)
    requires i < |s| && OutOfBounds(Move(s[i]), width, height)
    ensures var t := s[i := Move(s[i])];
            var t' := t[..i] + t[i + 1..];
            && (i + 1 <= |t'| ==> s[..i] + Survivors(s[i..], width, height) == t'[..i + 1] + Survivors(t'[i + 1..], width, height))
            && (i + 1 > |t'| ==> s[..i] + Survivors(s[i..], width, height) == t')
            && (Hits(s[i..], width, height, px, py) <==>
                  Collides(Move(s[i]), px, py) || (i + 1 <= |t'| && Hits(t'[i + 1..], width, height, px, py)))
  {
    var t := s[i := Move(s[i])];
    var t' := t[..i] + t[i + 1..];
    assert t' == s[..i] + s[i + 1..];
    var u := s[i..];
    assert u[0] == s[i];
    if i + 1 < |s| {
      assert u[1] == s[i + 1] && u[2..] == s[i + 2..];
      assert Survivors(u, width, height) == [s[i + 1]] + Survivors(s[i + 2..], width, height);
      assert t'[..i + 1] == s[..i] + [s[i + 1]];
      assert t'[i + 1..] == s[i + 2..];
    } else {
      assert Survivors(u, width, height) == [];
      assert t' == s[..i];
    }
  }

  /** What a frame does to each projectile, by its position at the start of the frame. */
  datatype Fate = Moved | Removed | Skipped

  function Fates(o: seq<Poop>, width: real, height: real): (fs: seq<Fate>)
    ensures |fs| == |o|
    decreases |o|
  {
    if |o| == 0 then []
    else if OutOfBounds(Move(o[0]), width, height) then
      if |o| == 1 then [Removed] else [Removed, Skipped] + Fates(o[2..], width, height)
    else
      [Moved] + Fates(o[1..], width, height)
  }

  /** The projectiles that a list of fates keeps: moved ones at their new place,
      skipped ones where they were, removed ones not at all. */
  function Keep(o: seq<Poop>, fs: seq<Fate>): seq<Poop>
    requires |fs| == |o|
    decreases |o|
  {
    if |o| == 0 then []
    else
      (match fs[0]
       case Moved => [Move(o[0])]
       case Removed => []
       case Skipped => [o[0]])
      + Keep(o[1..], fs[1..])
  }

  /** The fates read left to right: a projectile right after a removed one is
      skipped; every other one is removed exactly when its move takes it out of bounds. */
  lemma {:induction false} FateRule(o: seq<Poop>, width: real, height: real, k: nat)
    requires k < |o|
    ensures Fates(o, width, height)[k] ==
              if 0 < k && Fates(o, width, height)[k - 1] == Removed then Skipped
              else if OutOfBounds(Move(o[k]), width, height) then Removed
              else Moved
    decreases |o|
  {
    var fs := Fates(o, width, height);
    if OutOfBounds(Move(o[0]), width, height) {
      if k >= 2 {
        FateRule(o[2..], width, height, k - 2);
        if k > 2 {
          FateRule(o[2..], width, height, k - 3);
        }
      }
    } else if k >= 1 {
      FateRule(o[1..], width, height, k - 1);
      if k >= 2 {
        FateRule(o[1..], width, height, k - 2);
      } else {
        FateRule(o[1..], width, height, 0);
      }
    }
  }

  lemma {:induction false} KeepSkipsTwo(o: seq<Poop>, rest: seq<Fate>)
    requires |o| >= 2 && |rest| == |o| - 2
    ensures Keep(o, [Removed, Skipped] + rest) == [o[1]] + Keep(o[2..], rest)
  {
    var fs := [Removed, Skipped] + rest;
    assert fs[1..] == [Skipped] + rest;
    assert ([Skipped] + rest)[1..] == rest;
    assert o[1..][1..] == o[2..];
  }

  /** The frame keeps exactly what the fates say. */
  lemma {:induction false} SurvivorsFollowFates(o: seq<Poop>, width: real, height: real)
    ensures Survivors(o, width, height) == Keep(o, Fates(o, width, height))
    decreases |o|
  {
    if |o| > 0 {
      if OutOfBounds(Move(o[0]), width, height) {
        if |o| >= 2 {
          SurvivorsFollowFates(o[2..], width, height);
          KeepSkipsTwo(o, Fates(o[2..], width, height));
        }
      } else {
        SurvivorsFollowFates(o[1..], width, height);
        assert ([Moved] + Fates(o[1..], width, height))[1..] == Fates(o[1..], width, height);
      }
    }
  }

  /** The frame ends the game exactly when some projectile that was not skipped
      overlaps the player after its move, whether or not it was then removed. */
  lemma {:induction false} HitsAreVisitedCollisions(o: seq<Poop>, width: real, height: real, px: real, py: real)
    ensures Hits(o, width, height, px, py) <==>
              exists k :: 0 <= k < |o| && Fates(o, width, height)[k] != Skipped && Collides(Move(o[k]), px, py)
    decreases |o|
  {
    if |o| > 0 {
      var fs := Fates(o, width, height);
      if Collides(Move(o[0]), px, py) {
        assert fs[0] != Skipped;
      } else {
        var d := if OutOfBounds(Move(o[0]), width, height) then 2 else 1;
        if d <= |o| {
          HitsAreVisitedCollisions(o[d..], width, height, px, py);
          HitsShift(o, d, width, height, px, py);
        }
      }
    }
  }

  /** The induction step of the lemma above: below the first visited projectile
      after o[0], the hits of o are those of the suffix, shifted by d. */
  lemma HitsShift(o: seq<Poop>, d: nat, width: real, height: real, px: real, py: real)
    requires 0 < |o| && !Collides(Move(o[0]), px, py)
    requires d == if OutOfBounds(Move(o[0]), width, height) then 2 else 1
    requires d <= |o|
    ensures (exists k :: 0 <= k < |o| && Fates(o, width, height)[k] != Skipped && Collides(Move(o[k]), px, py)) <==>
            (exists j :: 0 <= j < |o| - d && Fates(o[d..], width, height)[j] != Skipped && Collides(Move(o[d..][j]), px, py))
  {
    var fs := Fates(o, width, height);
    var rfs := Fates(o[d..], width, height);
    assert fs == fs[..d] + rfs;
    if exists k :: 0 <= k < |o| && fs[k] != Skipped && Collides(Move(o[k]), px, py) {
      var k :| 0 <= k < |o| && fs[k] != Skipped && Collides(Move(o[k]), px, py);
      assert d <= k;
      assert rfs[k - d] == fs[k] && o[d..][k - d] == o[k];
    }
    if exists j :: 0 <= j < |o| - d && rfs[j] != Skipped && Collides(Move(o[d..][j]), px, py) {
      var j :| 0 <= j < |o| - d && rfs[j] != Skipped && Collides(Move(o[d..][j]), px, py);
      assert fs[j + d] == rfs[j] && o[j + d] == o[d..][j];
    }
  }

  /** A frame never adds projectiles, and it keeps them all exactly when none is removed. */
  lemma {:induction false} SurvivorCount(o: seq<Poop>, width: real, height: real)
    ensures |Survivors(o, width, height)| <= |o|
    ensures |Survivors(o, width, height)| == |o| <==> Removed !in Fates(o, width, height)
    decreases |o|
  {
    if |o| > 0 {
      if OutOfBounds(Move(o[0]), width, height) {
        if |o| >= 2 {
          SurvivorCount(o[2..], width, height);
        }
      } else {
        SurvivorCount(o[1..], width, height);
        assert Removed !in Fates(o, width, height) <==> Removed !in Fates(o[1..], width, height);
      }
    }
  }

  /** When no projectile leaves the padded viewport, every one of them moves by its velocity. */
  lemma {:induction false} NoRemovalMovesAll(o: seq<Poop>, width: real, height: real)
    requires forall k :: 0 <= k < |o| ==> !OutOfBounds(Move(o[k]), width, height)
    ensures |Survivors(o, width, height)| == |o|
    ensures forall k :: 0 <= k < |o| ==> Survivors(o, width, height)[k] == Move(o[k])
    decreases |o|
  {
    if |o| > 0 {
      assert !OutOfBounds(Move(o[0]), width, height);
      NoRemovalMovesAll(o[1..], width, height);
      assert forall k :: 1 <= k < |o| ==> o[1..][k - 1] == o[k];
    }
  }
}
