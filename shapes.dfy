/**
 * Shapes drawn onto a character image: a position, a size and an optional
 * texture, a rectangle or an ellipse, clipped to the image when drawn.
 */
module Shapes {
  import opened Wrappers

  datatype Point = Point(x: int, y: int)

  datatype Size = Size(width: int, height: int)

  /** A texture: its size and its image, rows of characters. */
  datatype Texture = Texture(size: Size, image: seq<string>)

  /** The image holds the texture's size: `height` rows of at least `width` characters. */
  predicate TextureValid(t: Texture)
  {
    t.size.height <= |t.image| && forall y :: 0 <= y < t.size.height ==> t.size.width <= |t.image[y]|
  }

  datatype ShapeType = Rectangle | Ellipse

  function Max(a: int, b: int): int { if a < b then b else a }

  function Min(a: int, b: int): int { if a < b then a else b }

  /**
   * What a shape is, as far as drawing goes. `inEllipse` is the library's
   * point-in-ellipse test, which takes the point relative to the position.
   */
  datatype Figure = Figure(kind: ShapeType, position: Point, size: Size, texture: Option<Texture>)

  /** `InShape`: always for a rectangle, the library's test for an ellipse. */
  function InShape(f: Figure, inEllipse: (Point, Size) -> bool, x: int, y: int): bool
  {
    match f.kind
    case Rectangle => true
    case Ellipse => inEllipse(Point(x - f.position.x, y - f.position.y), f.size)
  }

  /**
   * The character `Draw` writes at column `x`, row `y` of an image `width`
   * wide and `height` high, or `None` when it leaves that pixel alone.
   * Inside the clipped box a textured pixel comes from the texture, offset
   * from the clipped corner, and every other one is `'.'`.
   */
  function Drawn(f: Figure, inEllipse: (Point, Size) -> bool, width: int, height: int, x: int, y: int): (r: Option<char>)
    requires f.texture.Some? ==> TextureValid(f.texture.value)
  {
    var minX, maxX := Max(f.position.x, 0), Min(f.position.x + f.size.width, width);
    var minY, maxY := Max(f.position.y, 0), Min(f.position.y + f.size.height, height);
    if !(minX <= x < maxX && minY <= y < maxY && InShape(f, inEllipse, x, y)) then None
    else if f.texture.Some? && x - minX < f.texture.value.size.width && y - minY < f.texture.value.size.height then
      Some(f.texture.value.image[y - minY][x - minX])
    else Some('.')
  }

  /** Only pixels inside both the shape's box and the image are ever written. */
  lemma DrawnClipped(f: Figure, inEllipse: (Point, Size) -> bool, width: int, height: int, x: int, y: int)
    requires f.texture.Some? ==> TextureValid(f.texture.value)
    requires Drawn(f, inEllipse, width, height, x, y).Some?
    ensures 0 <= x < width && f.position.x <= x < f.position.x + f.size.width
    ensures 0 <= y < height && f.position.y <= y < f.position.y + f.size.height
  {
  }

  /** A rectangle writes every pixel of its box that lies in the image. */
  lemma RectangleFills(f: Figure, inEllipse: (Point, Size) -> bool, width: int, height: int, x: int, y: int)
    requires f.texture.Some? ==> TextureValid(f.texture.value)
    requires f.kind == Rectangle
    requires 0 <= x < width && f.position.x <= x < f.position.x + f.size.width
    requires 0 <= y < height && f.position.y <= y < f.position.y + f.size.height
    ensures Drawn(f, inEllipse, width, height, x, y).Some?
  {
  }

  /**
   * A texture changes which characters are written, never which pixels: the
   * same shape without a texture writes `'.'` at exactly the pixels the
   * textured one writes.
   */
  lemma TextureKeepsFootprint(f: Figure, inEllipse: (Point, Size) -> bool, width: int, height: int, x: int, y: int)
    requires f.texture.Some? ==> TextureValid(f.texture.value)
    ensures Drawn(f.(texture := None), inEllipse, width, height, x, y) ==
      if Drawn(f, inEllipse, width, height, x, y).Some? then Some('.') else None
  {
  }

  /**
   * A texture at least as large as the shape supplies every pixel the shape
   * writes: each written character is one of the texture's.
   */
  lemma CoveringTexture(f: Figure, inEllipse: (Point, Size) -> bool, width: int, height: int, x: int, y: int)
    requires f.texture.Some? && TextureValid(f.texture.value)
    requires f.size.width <= f.texture.value.size.width && f.size.height <= f.texture.value.size.height
    requires Drawn(f, inEllipse, width, height, x, y).Some?
    ensures var t := f.texture.value;
      exists tx, ty :: 0 <= tx < t.size.width && 0 <= ty < t.size.height &&
        Drawn(f, inEllipse, width, height, x, y).value == t.image[ty][tx]
  {
    var t := f.texture.value;
    var tx, ty := x - Max(f.position.x, 0), y - Max(f.position.y, 0);
    assert 0 <= tx < t.size.width && 0 <= ty < t.size.height;
    assert Drawn(f, inEllipse, width, height, x, y).value == t.image[ty][tx];
  }

  /** `Shape`, with `Rectangle`'s and `Ellipse`'s `InShape` chosen by `kind`. */
  class Shape {
    var kind: ShapeType
    var position: Point
    var size: Size
    var texture: Option<Texture>

    ghost predicate Valid()
      reads this
    {
      texture.Some? ==> TextureValid(texture.value)
    }

    function AsFigure(): Figure
      reads this
    {
      Figure(kind, position, size, texture)
    }

    /** `MakeShape`: a shape of the given kind with no texture. */
    constructor (shapeType: ShapeType)
      ensures Valid() && kind == shapeType && texture == None
      ensures position == Point(0, 0) && size == Size(0, 0)
    {
      kind, position, size, texture := shapeType, Point(0, 0), Size(0, 0), None;
    }

    method SetPosition(p: Point)
      modifies this
      ensures GetPosition() == p && kind == old(kind) && size == old(size) && texture == old(texture)
    {
      position := p;
    }

    function GetPosition(): Point
      reads this
    {
      position
    }

    method SetSize(s: Size)
      modifies this
      ensures GetSize() == s && kind == old(kind) && position == old(position) && texture == old(texture)
    {
      size := s;
    }

    function GetSize(): Size
      reads this
    {
      size
    }

    method SetTexture(t: Option<Texture>)
      requires t.Some? ==> TextureValid(t.value)
      modifies this
      ensures Valid() && GetTexture() == t && kind == old(kind) && position == old(position) && size == old(size)
    {
      texture := t;
    }

    function GetTexture(): Option<Texture>
      reads this
    {
      texture
    }

    /** `Clone`: a new shape of the same kind, position, size and texture. */
    method Clone() returns (c: Shape)
      requires Valid()
      ensures fresh(c) && c.Valid() && c.AsFigure() == AsFigure()
    {
      c := new Shape(kind);
      c.position, c.size, c.texture := position, size, texture;
    }

    /**
     * `Draw`: an image with no rows is left alone; otherwise every pixel
     * becomes what `Drawn` says, or keeps its character.
     */
    method Draw(image: array2<char>, inEllipse: (Point, Size) -> bool)
      requires Valid()
      modifies image
      ensures forall y, x :: 0 <= y < image.Length0 && 0 <= x < image.Length1 ==>
        image[y, x] == match Drawn(AsFigure(), inEllipse, image.Length1, image.Length0, x, y)
                       case Some(c) => c
                       case None => old(image[y, x])
    {
      if image.Length0 == 0 {
        return;
      }
      var minX := Max(position.x, 0);
      var maxX := Min(position.x + size.width, image.Length1);
      var minY := Max(position.y, 0);
      var maxY := Min(position.y + size.height, image.Length0);
      var x := minX;
      while x < maxX
        invariant minX <= x || maxX <= minX
        invariant forall yy, xx :: 0 <= yy < image.Length0 && 0 <= xx < image.Length1 ==>
          image[yy, xx] == Written(image.Length1, image.Length0, inEllipse, xx, yy, x, 0, old(image[yy, xx]))
      {
        var y := minY;
        while y < maxY
          invariant minY <= y || maxY <= minY
          invariant forall yy, xx :: 0 <= yy < image.Length0 && 0 <= xx < image.Length1 ==>
            image[yy, xx] == Written(image.Length1, image.Length0, inEllipse, xx, yy, x, y, old(image[yy, xx]))
        {
          if InShape(AsFigure(), inEllipse, x, y) {
            var pixel := '.';
            if texture.Some? {
              var textureX, textureY := x - minX, y - minY;
              if textureX < texture.value.size.width && textureY < texture.value.size.height {
                pixel := texture.value.image[textureY][textureX];
              }
            }
            image[y, x] := pixel;
          }
          y := y + 1;
        }
        x := x + 1;
      }
    }

    /** The pixel at `(xx, yy)` once the columns before `x` are done and, in column `x`, the rows before `y`. */
    ghost function Written(width: int, height: int, inEllipse: (Point, Size) -> bool,
                           xx: int, yy: int, x: int, y: int, before: char): char
      requires Valid()
      reads this
    {
      if xx < x || (xx == x && yy < y) then
        match Drawn(AsFigure(), inEllipse, width, height, xx, yy)
        case Some(c) => c
        case None => before
      else before
    }
  }
}
