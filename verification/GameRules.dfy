/** The rules of a frame of the game, on sequences of flying objects. */
module GameRules {
  import opened Wrappers

  const INT_MIN: int := -0x8000_0000
  const INT_MAX: int := 0x7fff_ffff

  const BULLET: int := -1
  const BOOM: int := -2
  const RED: int := 1
  const BLUE: int := 2
  const BLACK: int := 3
  const WHITE: int := 4

  /** An enemy, a bullet or a boom.  Bullets and booms have no extent of their own. */
  datatype Flying = Flying(
    x: int, y: int, kind: int, health: int, score: int, width: nat, height: nat, speed: int, offset: int)

  predicate OutOfBounds(f: Flying) {
    if f.kind == BULLET then f.y < 0 - f.height
    else if f.kind == BOOM then f.y < 0 - f.height && f.x >= 366
    else f.y > 654
  }

  function Moved(f: Flying): Flying {
    if f.kind == BULLET || f.kind == BOOM then f.(y := f.y - f.speed, x := f.x + f.offset) else f.(y := f.y + f.speed)
  }

  predicate ShotBy(f: Flying, b: Flying) {
    f.x < b.x + f.width && f.x > b.x - f.width && f.y < b.y + f.height && f.y > b.y - f.height
  }

  /** One health point less, in the 32-bit arithmetic of the program. */
  function Hurt(f: Flying): Flying { f.(health := if f.health == INT_MIN then INT_MAX else f.health - 1) }

  // ----- Hits

  /** The first enemy from `i` on that a bullet hits; `|os|` if there is none. */
  function FirstShot(os: seq<Flying>, b: Flying, i: nat): (r: nat)
    requires i <= |os|
    ensures i <= r <= |os| && (r < |os| ==> ShotBy(os[r], b)) && forall k :: i <= k < r ==> !ShotBy(os[k], b)
    decreases |os| - i
  {
    if i == |os| || ShotBy(os[i], b) then i else FirstShot(os, b, i + 1)
  }

  predicate Blasted(f: Flying, b: Flying) { ShotBy(f, b) && f.kind != WHITE }

  /** A boom takes every enemy it touches but the white ones down to -1. */
  function AfterBoom(os: seq<Flying>, b: Flying): seq<Flying> {
    seq(|os|, i requires 0 <= i < |os| => if Blasted(os[i], b) then os[i].(health := -1) else os[i])
  }

  /** The enemies after one bullet or boom, and whether it flies on. */
  function AfterOne(os: seq<Flying>, b: Flying): (r: (seq<Flying>, bool))
    ensures |r.0| == |os|
  {
    if b.kind == BULLET then
      var i := FirstShot(os, b, 0);
      if i < |os| then (os[i := Hurt(os[i])], false) else (os, true)
    else (AfterBoom(os, b), true)
  }

  /** The enemies after all bullets and booms in turn, and those that fly on. */
  function AfterAll(os: seq<Flying>, bs: seq<Flying>): (r: (seq<Flying>, seq<Flying>))
    ensures |r.0| == |os| && |r.1| <= |bs|
    decreases |bs|
  {
    if bs == [] then (os, []) else
      var n := |bs| - 1;
      var (os1, kept) := AfterAll(os, bs[..n]);
      var (os2, flies) := AfterOne(os1, bs[n]);
      (os2, if flies then kept + [bs[n]] else kept)
  }

  function TotalHealth(os: seq<Flying>): int
    decreases |os|
  {
    if os == [] then 0 else TotalHealth(os[..|os| - 1]) + os[|os| - 1].health
  }

  lemma {:induction false} TotalHealthUpdate(os: seq<Flying>, i: nat, f: Flying)
    requires i < |os|
    ensures TotalHealth(os[i := f]) == TotalHealth(os) - os[i].health + f.health
    decreases |os|
  {
    var n, os' := |os| - 1, os[i := f];
    if i < n {
      assert os'[..n] == os[..n][i := f];
      TotalHealthUpdate(os[..n], i, f);
    } else {
      assert os'[..n] == os[..n];
    }
  }

  /** How often a health value wraps around while the bullets strike. */
  function Wraps(os: seq<Flying>, bs: seq<Flying>): nat
    decreases |bs|
  {
    if bs == [] then 0 else
      var n := |bs| - 1;
      var os1 := AfterAll(os, bs[..n]).0;
      var i := FirstShot(os1, bs[n], 0);
      Wraps(os, bs[..n]) + if bs[n].kind == BULLET && i < |os1| && os1[i].health == INT_MIN then 1 else 0
  }

  predicate OnlyBullets(bs: seq<Flying>) { forall i :: 0 <= i < |bs| ==> bs[i].kind == BULLET }

  predicate HealthsFit(os: seq<Flying>) { forall i :: 0 <= i < |os| ==> INT_MIN <= os[i].health <= INT_MAX }

  /** With bullets only, the enemies lose exactly one point of health for each bullet that is used up, but for a
      health that wraps around. */
  lemma {:induction false} HealthLost(os: seq<Flying>, bs: seq<Flying>)
    requires OnlyBullets(bs)
    ensures var (os', kept) := AfterAll(os, bs);
            TotalHealth(os) - TotalHealth(os') == |bs| - |kept| - 0x1_0000_0000 * Wraps(os, bs)
    decreases |bs|
  {
    if bs != [] {
      var n := |bs| - 1;
      HealthLost(os, bs[..n]);
      var os1 := AfterAll(os, bs[..n]).0;
      var i := FirstShot(os1, bs[n], 0);
      if i < |os1| { TotalHealthUpdate(os1, i, Hurt(os1[i])); }
    }
  }

  /** How many of the bullets find enemy `i` first, on the field as it is before any of them strikes. */
  function Hits(os: seq<Flying>, bs: seq<Flying>, i: nat): nat
    decreases |bs|
  {
    if bs == [] then 0 else Hits(os, bs[..|bs| - 1], i) + if FirstShot(os, bs[|bs| - 1], 0) == i then 1 else 0
  }

  /** A 32-bit integer with the same lowest 32 bits. */
  function Wrap32(x: int): (r: int)
    ensures INT_MIN <= r <= INT_MAX && (INT_MIN <= x <= INT_MAX ==> r == x)
  {
    (x - INT_MIN) % 0x1_0000_0000 + INT_MIN
  }

  lemma HurtWraps(x: int)
    ensures Wrap32(x - 1) == if Wrap32(x) == INT_MIN then INT_MAX else Wrap32(x) - 1
  {
  }

  ghost predicate SameButHealth(f: Flying, g: Flying) { g == f.(health := g.health) }

  ghost predicate SamePlaces(os: seq<Flying>, os': seq<Flying>) {
    |os| == |os'| && forall i :: 0 <= i < |os| ==> SameButHealth(os[i], os'[i])
  }

  /** Nobody moves while bullets strike, so they find the same enemies as on the initial field. */
  lemma {:induction false} FindsTheSame(os: seq<Flying>, os': seq<Flying>, b: Flying, i: nat)
    requires SamePlaces(os, os') && i <= |os|
    ensures FirstShot(os, b, i) == FirstShot(os', b, i)
    decreases |os| - i
  {
    if i < |os| {
      assert SameButHealth(os[i], os'[i]);
      FindsTheSame(os, os', b, i + 1);
    }
  }

  /** What the bullets leave of each enemy: as many points less as bullets find it first, in 32-bit arithmetic. */
  lemma {:induction false} EnemyAfterHits(os: seq<Flying>, bs: seq<Flying>)
    requires OnlyBullets(bs) && HealthsFit(os)
    ensures var os' := AfterAll(os, bs).0;
            SamePlaces(os, os') && forall i :: 0 <= i < |os| ==> os'[i].health == Wrap32(os[i].health - Hits(os, bs, i))
    decreases |bs|
  {
    if bs != [] {
      var n := |bs| - 1;
      EnemyAfterHits(os, bs[..n]);
      var os1 := AfterAll(os, bs[..n]).0;
      FindsTheSame(os, os1, bs[n], 0);
      var j := FirstShot(os, bs[n], 0);
      if j < |os| { HurtWraps(os[j].health - Hits(os, bs[..n], j)); }
    }
  }

  /** No enemy is hit more often than its health is above the smallest integer. */
  predicate HitsFit(os: seq<Flying>, bs: seq<Flying>) {
    forall i :: 0 <= i < |os| ==> os[i].health - Hits(os, bs, i) >= INT_MIN
  }

  /** The last bullet wraps a health exactly if it is one hit too many. */
  lemma WrapsNext(os: seq<Flying>, bs: seq<Flying>, os1: seq<Flying>)
    requires bs != [] && HealthsFit(os) && HitsFit(os, bs[..|bs| - 1]) && |os1| == |os|
    requires forall i :: 0 <= i < |os| ==> os1[i].health == Wrap32(os[i].health - Hits(os, bs[..|bs| - 1], i))
    ensures var j := FirstShot(os, bs[|bs| - 1], 0);
            HitsFit(os, bs) <==> !(j < |os| && os1[j].health == INT_MIN)
  {
    var n := |bs| - 1;
    var j := FirstShot(os, bs[n], 0);
    forall i | 0 <= i < |os| ensures os1[i].health == os[i].health - Hits(os, bs[..n], i) { }
    if j < |os| { assert Hits(os, bs, j) == Hits(os, bs[..n], j) + 1; }
    forall i | 0 <= i < |os| && i != j ensures Hits(os, bs, i) == Hits(os, bs[..n], i) { }
  }

  lemma FewerHitsFit(os: seq<Flying>, bs: seq<Flying>)
    requires bs != [] && HitsFit(os, bs)
    ensures HitsFit(os, bs[..|bs| - 1])
  {
    forall i | 0 <= i < |os| ensures os[i].health - Hits(os, bs[..|bs| - 1], i) >= INT_MIN {
      assert os[i].health - Hits(os, bs, i) >= INT_MIN;
    }
  }

  lemma {:induction false} WrapsIff(os: seq<Flying>, bs: seq<Flying>)
    requires OnlyBullets(bs) && HealthsFit(os)
    ensures Wraps(os, bs) == 0 <==> HitsFit(os, bs)
    decreases |bs|
  {
    if bs != [] {
      var n := |bs| - 1;
      WrapsIff(os, bs[..n]);
      if HitsFit(os, bs[..n]) {
        EnemyAfterHits(os, bs[..n]);
        var os1 := AfterAll(os, bs[..n]).0;
        FindsTheSame(os, os1, bs[n], 0);
        WrapsNext(os, bs, os1);
      } else if HitsFit(os, bs) {
        FewerHitsFit(os, bs);
      }
    }
  }

  /** With bullets only, total health lost equals bullets used up if and only if no enemy is hit more often than its
      health is above the smallest integer. */
  lemma HealthPaysForBulletsIff(os: seq<Flying>, bs: seq<Flying>)
    requires OnlyBullets(bs) && HealthsFit(os)
    ensures var (os', kept) := AfterAll(os, bs);
            TotalHealth(os) - TotalHealth(os') == |bs| - |kept|
            <==> forall i :: 0 <= i < |os| ==> os[i].health - Hits(os, bs, i) >= INT_MIN
  {
    HealthLost(os, bs);
    WrapsIff(os, bs);
  }

  /** An enemy born at the smallest integer, as the spawn formula has it at score 0, and hit once before the sweep: it
      is not dead any more, but has the greatest health there is. */
  lemma BornDeadRevives(os: seq<Flying>, b: Flying, i: nat)
    requires i < |os| && os[i].health == INT_MIN && b.kind == BULLET && FirstShot(os, b, 0) == i && !OutOfBounds(os[i])
    ensures Dies(os[i])
    ensures var os' := AfterAll(os, [b]).0;
            |os'| == |os| && os'[i].health == INT_MAX && Stays(os'[i])
  {
    assert [b][..0] == [];
    assert AfterAll(os, [b]).0 == AfterOne(os, b).0;
  }

  /** Nobody appears, disappears or moves; only health changes; every boom flies on, and no bullet is made up. */
  lemma {:induction false} HitsTouchOnlyHealth(os: seq<Flying>, bs: seq<Flying>)
    ensures var (os', kept) := AfterAll(os, bs);
            && SamePlaces(os, os')
            && (forall b :: b in kept ==> b in bs) && (forall b :: b in bs && b.kind != BULLET ==> b in kept)
    decreases |bs|
  {
    if bs != [] {
      HitsTouchOnlyHealth(os, bs[..|bs| - 1]);
      assert bs == bs[..|bs| - 1] + [bs[|bs| - 1]];
    }
  }

  /** Booms alone: a white enemy keeps its health, any other one that some boom touches is left with -1. */
  lemma {:induction false} BoomsBlastExactly(os: seq<Flying>, bs: seq<Flying>, i: nat)
    requires i < |os| && forall k :: 0 <= k < |bs| ==> bs[k].kind != BULLET
    ensures var os' := AfterAll(os, bs).0;
            os'[i] == if exists b :: b in bs && Blasted(os[i], b) then os[i].(health := -1) else os[i]
    decreases |bs|
  {
    if bs != [] {
      var n := |bs| - 1;
      BoomsBlastExactly(os, bs[..n], i);
      assert bs == bs[..n] + [bs[n]];
      assert forall b :: b in bs <==> b in bs[..n] || b == bs[n];
    }
  }

  // ----- The sweep

  predicate InBounds(f: Flying) { !OutOfBounds(f) }
  predicate Stays(f: Flying) { !OutOfBounds(f) && f.health >= 0 }
  predicate Dies(f: Flying) { !OutOfBounds(f) && f.health < 0 }

  function Select(os: seq<Flying>, p: Flying -> bool): (r: seq<Flying>)
    ensures |r| <= |os|
    decreases |os|
  {
    if os == [] then [] else
      var n := |os| - 1;
      Select(os[..n], p) + if p(os[n]) then [os[n]] else []
  }

  /** Everyone is accounted for exactly once: kept, killed or escaped. */
  lemma {:induction false} SweepPartitions(os: seq<Flying>)
    ensures |os| == |Select(os, Stays)| + |Select(os, Dies)| + |Select(os, OutOfBounds)|
    decreases |os|
  {
    if os != [] { SweepPartitions(os[..|os| - 1]); }
  }

  function Payout(f: Flying): int { f.score + if f.kind == BLUE then 10 else 0 }

  function Payouts(fs: seq<Flying>): int
    decreases |fs|
  {
    if fs == [] then 0 else Payouts(fs[..|fs| - 1]) + Payout(fs[|fs| - 1])
  }

  function CountKind(fs: seq<Flying>, kind: int): nat
    decreases |fs|
  {
    if fs == [] then 0 else CountKind(fs[..|fs| - 1], kind) + if fs[|fs| - 1].kind == kind then 1 else 0
  }

  /** The sweep, one enemy further. */
  lemma SweepNext(os: seq<Flying>, i: nat)
    requires i < |os|
    ensures forall p :: Select(os[..i + 1], p) == Select(os[..i], p) + if p(os[i]) then [os[i]] else []
    ensures !Dies(os[i]) ==> Select(os[..i + 1], Dies) == Select(os[..i], Dies)
    ensures Dies(os[i]) ==> var ds := Select(os[..i + 1], Dies);
              && Payouts(ds) == Payouts(Select(os[..i], Dies)) + Payout(os[i])
              && forall k :: CountKind(ds, k) == CountKind(Select(os[..i], Dies), k) + if os[i].kind == k then 1 else 0
  {
    assert os[..i + 1][..i] == os[..i];
    var ds := Select(os[..i], Dies);
    assert (ds + [os[i]])[..|ds|] == ds;
  }

  lemma {:induction false} Totals(fs: seq<Flying>, gs: seq<Flying>)
    ensures Payouts(fs + gs) == Payouts(fs) + Payouts(gs)
    ensures forall k :: CountKind(fs + gs, k) == CountKind(fs, k) + CountKind(gs, k)
    decreases |gs|
  {
    if gs == [] {
      assert fs + gs == fs;
    } else {
      var n := |gs| - 1;
      assert (fs + gs)[..|fs| + n] == fs + gs[..n];
      Totals(fs, gs[..n]);
    }
  }

  // ----- What the rules mean

  function Abs(n: int): nat { if n < 0 then -n else n }

  /** A bullet hits an enemy that is nearer to it than the enemy is wide and high. */
  lemma ShotByIffNear(f: Flying, b: Flying)
    ensures ShotBy(f, b) <==> Abs(f.x - b.x) < f.width && Abs(f.y - b.y) < f.height
  {
  }

  function MovedTimes(f: Flying, n: nat): Flying { if n == 0 then f else Moved(MovedTimes(f, n - 1)) }

  /** Enemies fall and escape at the bottom; bullets rise, drifting, and leave at the top; a boom that has left at the
      top is let go only far enough to the right. */
  lemma {:induction false} FlightEnds(f: Flying, n: nat)
    ensures var g := MovedTimes(f, n);
            if f.kind == BULLET || f.kind == BOOM then g == f.(x := f.x + n * f.offset, y := f.y - n * f.speed)
            else g == f.(y := f.y + n * f.speed)
    ensures f.kind == BULLET ==> (OutOfBounds(MovedTimes(f, n)) <==> f.y - n * f.speed < 0 - f.height)
    ensures f.kind == BOOM ==>
              (OutOfBounds(MovedTimes(f, n)) <==> f.y - n * f.speed < 0 - f.height && f.x + n * f.offset >= 366)
    ensures f.kind != BULLET && f.kind != BOOM ==> (OutOfBounds(MovedTimes(f, n)) <==> f.y + n * f.speed > 654)
  {
    if n > 0 { FlightEnds(f, n - 1); }
  }

  // ----- The game as a value

  datatype Screen = Ready | Playing | Paused | Over

  datatype Key = Z | X | Escape | OtherKey

  datatype Input = Tick(spawn: Option<Flying>, dx: int, dy: int) | Paint | Press(key: Key) | ReleaseZ

  datatype Pilot = Pilot(x: int, y: int, health: int, power: nat, spell: nat, isShoot: bool)

  const NEW_PILOT := Pilot(200, 500, 3, 0, 3, false)

  datatype World = World(
    objects: seq<Flying>, bullets: seq<Flying>, pilot: Pilot, screen: Screen, score: int, shootIndex: int)

  /** The most lives and the most spells that fit on the screen. */
  const MOST: nat := 9

  function MovedAll(fs: seq<Flying>): seq<Flying> { seq(|fs|, i requires 0 <= i < |fs| => Moved(fs[i])) }

  /** From which quarters of the player's width a shot leaves, and which way each bullet drifts. */
  function Lanes(power: nat): seq<(nat, int)> {
    if power < 10 then [(2, 0)]
    else if power < 30 then [(1, 0), (3, 0)]
    else if power < 60 then [(1, -1), (2, 0), (3, 1)]
    else [(1, -2), (2, -1), (3, 1), (4, 2)]
  }

  function Volley(x: int, y: int, step: nat, power: nat): seq<Flying> {
    var lanes := Lanes(power);
    seq(|lanes|, i requires 0 <= i < |lanes| =>
      Flying(x + lanes[i].0 * step - 7, y - 20, BULLET, 0, 0, 0, 0, 15, lanes[i].1))
  }

  function BoomFrom(x: int, y: int, step: nat): Flying { Flying(x + 2 * step - 30, y - 20, BOOM, 0, 0, 0, 0, 6, 0) }

  function Clamped(v: int, low: int, high: int): int { if v < low then low else if v > high then high else v }

  /** The middle of a player of that size lies inside the enemy's box, which is drawn closer by a margin. */
  predicate Touches(x: int, y: int, width: nat, height: nat, f: Flying) {
    && f.x - width * 2 / 3 + 3 < x + width / 2 < f.x + width / 3 + f.width - 3
    && f.y - height * 2 / 3 + 5 < y + height / 2 < f.y + height / 3 + f.height - 5
  }

  function Rewarded(p: Pilot, dead: seq<Flying>): Pilot {
    p.(health := p.health + CountKind(dead, WHITE), power := p.power + CountKind(dead, RED),
       spell := p.spell + CountKind(dead, BLACK))
  }

  function SpawnedOne(spawn: Option<Flying>): seq<Flying> { if spawn.Some? then [spawn.value] else [] }

  /** Everything moves, a new enemy included; and a held trigger fires at every tenth frame. */
  function Launched(w: World, spawn: Option<Flying>, dx: int, dy: int, width: nat): World {
    var i := w.shootIndex + 1;
    var fires := i % 10 == 0 && w.pilot.isShoot;
    var p := w.pilot.(x := w.pilot.x + dx, y := w.pilot.y + dy,
                      power := if fires && w.pilot.power > 100 then 100 else w.pilot.power);
    var bullets := MovedAll(w.bullets);
    w.(objects := MovedAll(w.objects + SpawnedOne(spawn)), pilot := p, shootIndex := i,
       bullets := if fires then bullets + Volley(p.x, p.y, width / 4, p.power) else bullets)
  }

  /** What flies strikes. */
  function Struck(w: World): World {
    var (objects, bullets) := AfterAll(w.objects, w.bullets);
    w.(objects := objects, bullets := bullets)
  }

  /** The dead are paid for, what is out of bounds is let go, and the player is kept on the field. */
  function Swept(w: World): World {
    var dead := Select(w.objects, Dies);
    var p := Rewarded(w.pilot, dead);
    w.(objects := Select(w.objects, Stays), bullets := Select(w.bullets, InBounds),
       score := w.score + Payouts(dead), pilot := p.(x := Clamped(p.x, 3, 395), y := Clamped(p.y, 0, 540)))
  }

  ghost predicate Touched(w: World, width: nat, height: nat) {
    exists f :: f in w.objects && Touches(w.pilot.x, w.pilot.y, width, height, f)
  }

  /** An enemy that touches the player takes a life, and every enemy with it. */
  ghost function Clashed(w: World, width: nat, height: nat): World {
    var p := w.pilot;
    var w' := if Touched(w, width, height)
              then w.(objects := [], pilot := Pilot(200, 500, p.health - 1, p.power / 2, 3, p.isShoot)) else w;
    if w'.pilot.health <= 0 then w'.(screen := Over) else w'
  }

  ghost function AfterTick(w: World, spawn: Option<Flying>, dx: int, dy: int, width: nat, height: nat): World {
    if w.screen == Playing then Clashed(Swept(Struck(Launched(w, spawn, dx, dy, width))), width, height) else w
  }

  function Painted(w: World): World {
    w.(pilot := w.pilot.(health := if w.pilot.health > MOST then MOST else w.pilot.health,
                         spell := if w.pilot.spell > MOST then MOST else w.pilot.spell))
  }

  function AfterKey(w: World, key: Key, width: nat): World {
    match (w.screen, key)
    case (Ready, Z) => w.(screen := Playing)
    case (Playing, Z) => w.(pilot := w.pilot.(isShoot := true))
    case (Playing, X) =>
      if w.pilot.spell == 0 then w
      else w.(bullets := w.bullets + [BoomFrom(w.pilot.x, w.pilot.y, width / 4)],
              pilot := w.pilot.(spell := w.pilot.spell - 1))
    case (Playing, Escape) => w.(screen := Paused)
    case (Over, Escape) => World([], [], NEW_PILOT, Ready, 0, w.shootIndex)
    case _ => w
  }

  ghost function AfterInput(w: World, input: Input, width: nat, height: nat): World {
    match input
    case Tick(spawn, dx, dy) => AfterTick(w, spawn, dx, dy, width, height)
    case Paint => Painted(w)
    case Press(key) => AfterKey(w, key, width)
    case ReleaseZ => w.(pilot := w.pilot.(isShoot := false), shootIndex := 0)
  }

  /** A whole run. */
  ghost function AfterInputs(w: World, inputs: seq<Input>, width: nat, height: nat): World
    decreases |inputs|
  {
    if inputs == [] then w
    else AfterInput(AfterInputs(w, inputs[..|inputs| - 1], width, height), inputs[|inputs| - 1], width, height)
  }

  /** A pause never ends: no key leads out of it, and nothing else moves. */
  lemma {:induction false} PauseForEver(w: World, inputs: seq<Input>, width: nat, height: nat)
    requires w.screen == Paused
    ensures var w' := AfterInputs(w, inputs, width, height);
            w'.screen == Paused && w'.objects == w.objects && w'.bullets == w.bullets && w'.score == w.score
    decreases |inputs|
  {
    if inputs != [] { PauseForEver(w, inputs[..|inputs| - 1], width, height); }
  }

  /** After a repaint there are at most nine lives and nine spells. */
  lemma PaintedFits(w: World, inputs: seq<Input>, width: nat, height: nat)
    requires inputs != [] && inputs[|inputs| - 1].Paint?
    ensures var p := AfterInputs(w, inputs, width, height).pilot; p.health <= MOST && p.spell <= MOST
  {
  }
}
