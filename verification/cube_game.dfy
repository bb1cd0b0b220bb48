/** The cube game's play scene: a player sprite moved by the arrow keys,
    bombs that send it back to the centre and count a hit, and the position
    it saves. Physics, rendering and the bombs' random velocities are not
    part of this model; a collision is an input event. */
module CubeGame {
  import opened Base
  import opened Text

  datatype Vec = Vec(x: int, y: int)

  /** Where a collision puts the player back. */
  const Centre: Vec := Vec(400, 300)

  /** The speed `create` sets. */
  const Speed: int := 500

  /** The scene's state: the player's position and velocity, the hit count,
      the text of the hits label, the speed, and where the images added by
      `add-player` were placed, in the order they were added. */
  datatype Play = Play(player: Vec, velocity: Vec, hits: nat, hitsText: string, speed: int, images: seq<Vec>)

  /** The text the hits label shows for a count. */
  function HitsLabel(hits: nat): (s: string)
    ensures |s| > 6 && s[..6] == "Hits: "
  {
    "Hits: " + NatToString(hits)
  }

  /** The label shows the hit count. */
  predicate Shows(s: Play)
  {
    s.hitsText == HitsLabel(s.hits)
  }

  /** `create`: the player at the stored position, no hits, the label
      `Hits: 0`, and speed 500. */
  function Create(stored: Vec): (s: Play)
    ensures s.player == stored && s.hits == 0 && s.speed == Speed && s.images == []
    ensures Shows(s)
  {
    assert HitsLabel(0) == "Hits: 0";
    Play(stored, Vec(0, 0), 0, "Hits: 0", Speed, [])
  }

  /** The collider callback: one more hit, the label updated, and the player
      back at the centre. */
  function Collide(s: Play): (r: Play)
    ensures r.hits == s.hits + 1 && Shows(r)
    ensures r.player == Centre
    ensures r.velocity == s.velocity && r.speed == s.speed
  {
    var hits := s.hits + 1;
    s.(hits := hits, hitsText := "Hits: " + NatToString(hits), player := Centre)
  }

  /** The arrow keys held down in one frame. */
  datatype Keys = Keys(up: bool, down: bool, left: bool, right: bool)

  /** The velocity `update` sets: the first key held down in the order up,
      down, left, right decides, at the scene's speed; none gives rest. The
      ensures follow the branches; SteerMasks and SteerOneAxis say what they
      amount to. */
  function Steer(k: Keys, speed: int): (v: Vec)
    ensures k.up ==> v == Vec(0, -speed)
    ensures !k.up && k.down ==> v == Vec(0, speed)
    ensures !k.up && !k.down && k.left ==> v == Vec(-speed, 0)
    ensures !k.up && !k.down && !k.left && k.right ==> v == Vec(speed, 0)
    ensures !k.up && !k.down && !k.left && !k.right ==> v == Vec(0, 0)
  {
    if k.up then Vec(0, -speed)
    else if k.down then Vec(0, speed)
    else if k.left then Vec(-speed, 0)
    else if k.right then Vec(speed, 0)
    else Vec(0, 0)
  }

  /** `update` sets the velocity and nothing else. */
  function Update(s: Play, k: Keys): (r: Play)
    ensures r.velocity == Steer(k, s.speed)
    ensures r.player == s.player && r.hits == s.hits && r.hitsText == s.hitsText && r.speed == s.speed
  {
    s.(velocity := Steer(k, s.speed))
  }

  /** After `update` the player moves along one axis at most, at the
      scene's speed, and stands still exactly when no arrow key is down. */
  lemma SteerOneAxis(k: Keys, speed: int)
    requires speed > 0
    ensures Steer(k, speed).x == 0 || Steer(k, speed).y == 0
    ensures Steer(k, speed) == Vec(0, 0) <==> !k.up && !k.down && !k.left && !k.right
    ensures Steer(k, speed) != Vec(0, 0) ==> Abs(Steer(k, speed).x) + Abs(Steer(k, speed).y) == speed
  {
  }

  /** A key held down masks every key after it in the order: releasing or
      pressing those changes nothing. */
  lemma SteerMasks(k: Keys, j: Keys, speed: int)
    ensures k.up && j.up ==> Steer(k, speed) == Steer(j, speed)
    ensures !k.up && !j.up && k.down && j.down ==> Steer(k, speed) == Steer(j, speed)
    ensures !k.up && !j.up && !k.down && !j.down && k.left && j.left ==> Steer(k, speed) == Steer(j, speed)
  {
  }

  function Abs(n: int): nat
  {
    if n < 0 then -n else n
  }

  /** Dragging the player moves it to the pointer. */
  function Drag(s: Play, pointer: Vec): (r: Play)
    ensures r.player == pointer && r.hits == s.hits && r.hitsText == s.hitsText
  {
    s.(player := pointer)
  }

  /** Every event keeps the label showing the hit count, and only a
      collision changes that count. */
  datatype Event = Collision | Frame(keys: Keys) | DragTo(pointer: Vec) | AddImage(x: Option<int>, y: Option<int>)

  function Step(s: Play, e: Event): (r: Play)
    ensures Shows(s) ==> Shows(r)
    ensures r.hits == if e.Collision? then s.hits + 1 else s.hits
    ensures r.speed == s.speed
  {
    match e
    case Collision => Collide(s)
    case Frame(k) => Update(s, k)
    case DragTo(p) => Drag(s, p)
    case AddImage(x, y) => AddPlayer(s, x, y)
  }

  function Run(s: Play, events: seq<Event>): Play
    decreases |events|
  {
    if |events| == 0 then s else Run(Step(s, events[0]), events[1..])
  }

  function CountCollisions(events: seq<Event>): nat
    decreases |events|
  {
    if |events| == 0 then 0 else (if events[0].Collision? then 1 else 0) + CountCollisions(events[1..])
  }

  /** From `create`, whatever happens, the hit count is the number of
      collisions so far, the label shows it, and the speed stays 500. */
  lemma {:induction false} RunCounts(s: Play, events: seq<Event>)
    requires Shows(s)
    ensures Shows(Run(s, events))
    ensures Run(s, events).hits == s.hits + CountCollisions(events)
    ensures Run(s, events).speed == s.speed
    decreases |events|
  {
    if |events| > 0 {
      RunCounts(Step(s, events[0]), events[1..]);
    }
  }

  /** The label alone tells the hit count. */
  lemma LabelTellsHits(s: Play, t: Play)
    requires Shows(s) && Shows(t) && s.hitsText == t.hitsText
    ensures s.hits == t.hits
  {
    assert NatToString(s.hits) == s.hitsText[6..];
    assert NatToString(t.hits) == t.hitsText[6..];
    NatToStringInjective(s.hits, t.hits);
  }

  /** `addPlayer(x = 300, y = 400)`: where the new player image goes, an
      argument left out taking its default. */
  function AddPlayerAt(x: Option<int>, y: Option<int>): (p: Vec)
    ensures p.x == (if x.Some? then x.value else 300)
    ensures p.y == (if y.Some? then y.value else 400)
  {
    Vec(if x.Some? then x.value else 300, if y.Some? then y.value else 400)
  }

  /** The `add-player` listener: a new image at that place, apart from the
      player sprite, which stays where it is. */
  function AddPlayer(s: Play, x: Option<int>, y: Option<int>): (r: Play)
    ensures r.images == s.images + [AddPlayerAt(x, y)]
    ensures r.(images := s.images) == s
  {
    s.(images := s.images + [AddPlayerAt(x, y)])
  }

  /** `savePlayerPosition` sends the player's x and y and nothing else. */
  datatype Position = Position(x: int, y: int)

  function SavePayload(s: Play): (p: Position)
    ensures p.x == s.player.x && p.y == s.player.y
  {
    Position(s.player.x, s.player.y)
  }

  /** Adding an image changes nothing a save sends. */
  lemma AddPlayerKeepsSave(s: Play, x: Option<int>, y: Option<int>)
    ensures SavePayload(AddPlayer(s, x, y)) == SavePayload(s)
  {
  }

  /** The events other than `add-player`. */
  function DropAdds(events: seq<Event>): (r: seq<Event>)
    decreases |events|
    ensures forall i :: 0 <= i < |r| ==> !r[i].AddImage?
  {
    if |events| == 0 then []
    else if events[0].AddImage? then DropAdds(events[1..])
    else [events[0]] + DropAdds(events[1..])
  }

  /** Whatever images `add-player` adds along the way, the scene ends as it
      would have without them, apart from those images; in particular every
      save sends the same position. */
  lemma {:induction false} AddsNeverSaved(s1: Play, s2: Play, events: seq<Event>)
    requires s1.(images := s2.images) == s2
    ensures Run(s1, events).(images := s2.images) == Run(s2, DropAdds(events)).(images := s2.images)
    ensures SavePayload(Run(s1, events)) == SavePayload(Run(s2, DropAdds(events)))
    decreases |events|
  {
    if |events| > 0 {
      var e := events[0];
      if e.AddImage? {
        AddsNeverSaved(Step(s1, e), s2, events[1..]);
      } else {
        assert Step(s1, e).(images := Step(s2, e).images) == Step(s2, e);
        AddsNeverSaved(Step(s1, e), Step(s2, e), events[1..]);
        assert DropAdds(events) == [e] + DropAdds(events[1..]);
        assert ([e] + DropAdds(events[1..]))[1..] == DropAdds(events[1..]);
      }
    }
  }

  /** A save right after a collision sends the centre. */
  lemma SaveAfterCollision(s: Play)
    ensures SavePayload(Collide(s)) == Position(400, 300)
  {
  }
}
