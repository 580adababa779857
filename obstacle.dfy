/** Obstacle: a square (or circle) of half-size `radius` centred at (x, y);
    only its position changes after construction. */
module Obstacles {

  class Obstacle {
    var x: real
    var y: real
    const radius: real
    const square: bool

    constructor (x: real, y: real, radius: real, square: bool)
      ensures this.x == x && this.y == y && this.radius == radius && this.square == square
    {
      this.x := x;
      this.y := y;
      this.radius := radius;
      this.square := square;
    }

    method SetPosition(x: real, y: real)
      modifies this
      ensures this.x == x && this.y == y
    {
      this.x := x;
      this.y := y;
    }
  }
}
