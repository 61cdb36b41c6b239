/** Room coordinates as the game engine exposes them. */
module Grid {

  /** A cell of a room (mem.ts `MyPosition`). */
  datatype MyPosition = MyPosition(x: int, y: int)

  /** Rooms are 50 by 50 cells. */
  const RoomSize: int := 50

  /** `room.getPositionAt(x, y)` is non-null exactly for the cells of the room. */
  predicate InRoom(p: MyPosition) {
    0 <= p.x < RoomSize && 0 <= p.y < RoomSize
  }

  function Abs(n: int): nat {
    if n < 0 then -n else n
  }

  /** `pos.getRangeTo(x, y)` inside one room: the Chebyshev distance. */
  function Range(a: MyPosition, b: MyPosition): (r: nat)
    ensures r == 0 <==> a == b
    ensures Abs(a.x - b.x) <= r && Abs(a.y - b.y) <= r
    ensures r == Abs(a.x - b.x) || r == Abs(a.y - b.y)
  {
    var dx := Abs(a.x - b.x);
    var dy := Abs(a.y - b.y);
    if dx < dy then dy else dx
  }
}
