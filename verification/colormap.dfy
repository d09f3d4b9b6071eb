/** Label colouring of the people-detection pipeline: a fixed table of 32
    RGB colours, the lookup of one label's colour, the colouring of a label
    image into an interleaved RGB buffer and of a label cloud into a colour
    cloud, and the RGBA table prepared for the device (red and blue
    swapped). */
module ColorMap {

  newtype byte = x: int | 0 <= x < 0x100

  /** A body-part label of a label image (one byte per pixel). */
  newtype Label = x: int | 0 <= x < 0x100

  newtype uint32 = x: int | 0 <= x < 0x1_0000_0000

  /** A colour as getLColor fills it: red, green, blue. */
  datatype RGB = RGB(r: byte, g: byte, b: byte)

  /** A colour as the device table holds it, with alpha. */
  datatype RGBA = RGBA(r: byte, g: byte, b: byte, a: byte)

  /** pcl::Label: a point carrying a 32-bit label. */
  datatype LabelPoint = LabelPoint(id: uint32)

  /** A point cloud: its points and its width and height. */
  datatype Cloud<P> = Cloud(points: seq<P>, width: uint32, height: uint32)

  /** LUT_COLOR_LABEL: red, green, blue of each label, one after another. */
  const LUT: seq<byte> := [
     50,  34,  22,
     24, 247, 196,
     33, 207, 189,
    254, 194, 127,
     88, 115, 175,
    158,  91,  64,
     14,  90,   2,
    100, 156, 227,
    243, 167,  17,
    145, 194, 184,
    234, 171, 147,
    220, 112,  93,
     93, 132, 163,
    122,   4,  85,
     75, 168,  46,
     15,   5, 108,
    180, 125, 107,
    157,  77, 167,
    214,  89,  73,
     52, 183,  58,
     54, 155,  75,
    249,  61, 187,
    143,  57,  11,
    246, 198,   0,
    202, 177, 251,
    229, 115,  80,
    159, 185,   1,
    186, 213, 229,
     82,  47, 144,
    140,  69, 139,
    189, 115, 117,
     80,  57, 150
  ]

  /** LUT_COLOR_LABEL_LENGTH: the number of colours in the table. */
  const LUT_COLOR_LABEL_LENGTH: nat := 32

  /** The count is the table's byte count divided by three, and the table
      holds whole colours only, so labels below the count are exactly the
      ones whose three bytes lie inside the table. */
  lemma LutLength()
    ensures LUT_COLOR_LABEL_LENGTH == |LUT| / 3
    ensures |LUT| == 3 * LUT_COLOR_LABEL_LENGTH
    ensures forall l: nat :: l < LUT_COLOR_LABEL_LENGTH <==> 3 * l + 2 < |LUT|
  {
  }

  /** getLColor(unsigned char): the colour of a label. */
  function GetLColor(l: Label): (p: RGB)
    requires (l as int) < LUT_COLOR_LABEL_LENGTH
    ensures p.r == LUT[3 * l as int] && p.g == LUT[3 * l as int + 1] && p.b == LUT[3 * l as int + 2]
  {
    var c := 3 * l as int;
    RGB(LUT[c], LUT[c + 1], LUT[c + 2])
  }

  /** The label of a pcl::Label point converted to unsigned char, that is,
      its low byte. */
  function LowByte(id: uint32): (l: Label)
    ensures l as int == id as int % 0x100
  {
    (id as int % 0x100) as Label
  }

  /** getLColor(pcl::Label): the colour of the label's low byte. */
  function GetLColorOfPoint(p: LabelPoint): (c: RGB)
    requires (p.id as int) % 0x100 < LUT_COLOR_LABEL_LENGTH
    ensures c == GetLColor((p.id as int % 0x100) as Label)
  {
    GetLColor(LowByte(p.id))
  }

  /** The loop of colorLMap(W, H, l, c) over any table of whole colours:
      pixel pi of the label image selects the three bytes at 3 * l[pi]. */
  method ColourPixels(lut: seq<byte>, W: int, H: int, l: array<Label>, c: array<byte>)
    requires |lut| == 3 * LUT_COLOR_LABEL_LENGTH
    requires W * H <= l.Length && 3 * (W * H) <= c.Length
    requires forall pi :: 0 <= pi < W * H ==> (l[pi] as int) < LUT_COLOR_LABEL_LENGTH
    modifies c
    ensures forall pi :: 0 <= pi < W * H ==>
      c[3 * pi] == lut[3 * l[pi] as int] && c[3 * pi + 1] == lut[3 * l[pi] as int + 1] && c[3 * pi + 2] == lut[3 * l[pi] as int + 2]
    ensures forall j :: 0 <= j < c.Length && !(0 <= j < 3 * (W * H)) ==> c[j] == old(c[j])
  {
    var numPix := W * H;
    var pi := 0;
    while pi < numPix
      invariant 0 <= pi <= if numPix >= 0 then numPix else 0
      invariant forall q :: 0 <= q < pi ==>
        c[3 * q] == lut[3 * l[q] as int] && c[3 * q + 1] == lut[3 * l[q] as int + 1] && c[3 * q + 2] == lut[3 * l[q] as int + 2]
      invariant forall j :: 0 <= j < c.Length && !(0 <= j < 3 * pi) ==> c[j] == old(c[j])
    {
      var color := 3 * l[pi] as int;
      c[3 * pi] := lut[color];
      c[3 * pi + 1] := lut[color + 1];
      c[3 * pi + 2] := lut[color + 2];
      pi := pi + 1;
    }
  }

  /** colorLMap(W, H, l, c): colour the first W*H pixels of the label image
      l into the interleaved buffer c, three bytes per pixel, each pixel the
      colour getLColor gives its label. Nothing past the first 3*W*H bytes
      of c is written. */
  method ColorLMap(W: int, H: int, l: array<Label>, c: array<byte>)
    requires W * H <= l.Length && 3 * (W * H) <= c.Length
    requires forall pi :: 0 <= pi < W * H ==> (l[pi] as int) < LUT_COLOR_LABEL_LENGTH
    modifies c
    ensures forall pi :: 0 <= pi < W * H ==>
      c[3 * pi] == LUT[3 * l[pi] as int] && c[3 * pi + 1] == LUT[3 * l[pi] as int + 1] && c[3 * pi + 2] == LUT[3 * l[pi] as int + 2]
    ensures forall pi :: 0 <= pi < W * H ==> RGB(c[3 * pi], c[3 * pi + 1], c[3 * pi + 2]) == GetLColor(l[pi])
    ensures forall j :: 0 <= j < c.Length && !(0 <= j < 3 * (W * H)) ==> c[j] == old(c[j])
  {
    LutLength();
    ColourPixels(LUT, W, H, l, c);
  }

  /** colorLMap(cloud_in, colormap_out): a colour cloud of the same size,
      width and height whose point i is the colour of label point i. */
  method ColorLMapCloud(cloudIn: Cloud<LabelPoint>) returns (out: Cloud<RGB>)
    requires forall i :: 0 <= i < |cloudIn.points| ==> (cloudIn.points[i].id as int) % 0x100 < LUT_COLOR_LABEL_LENGTH
    ensures |out.points| == |cloudIn.points|
    ensures out.width == cloudIn.width && out.height == cloudIn.height
    ensures forall i :: 0 <= i < |out.points| ==> out.points[i] == GetLColorOfPoint(cloudIn.points[i])
  {
    var points: seq<RGB> := [];
    var i := 0;
    while i < |cloudIn.points|
      invariant 0 <= i <= |cloudIn.points| && |points| == i
      invariant forall j :: 0 <= j < i ==> points[j] == GetLColorOfPoint(cloudIn.points[j])
    {
      points := points + [GetLColorOfPoint(cloudIn.points[i])];
      i := i + 1;
    }
    out := Cloud(points, cloudIn.width, cloudIn.height);
  }

  /** An opaque device colour with red and blue exchanged. */
  function ForDevice(p: RGB): RGBA
  {
    RGBA(p.b, p.g, p.r, 255)
  }

  /** The loop of uploadColorMap over any table of whole colours: entry i
      takes the three bytes of colour i back to front, and is opaque. */
  method SwapColours(lut: seq<byte>) returns (rgba: array<RGBA>)
    requires |lut| == 3 * LUT_COLOR_LABEL_LENGTH
    ensures rgba.Length == LUT_COLOR_LABEL_LENGTH
    ensures forall i :: 0 <= i < rgba.Length ==>
      rgba[i] == RGBA(lut[3 * i + 2], lut[3 * i + 1], lut[3 * i], 255)
  {
    rgba := new RGBA[LUT_COLOR_LABEL_LENGTH];
    var i := 0;
    while i < LUT_COLOR_LABEL_LENGTH
      invariant 0 <= i <= LUT_COLOR_LABEL_LENGTH
      invariant forall j :: 0 <= j < i ==> rgba[j] == RGBA(lut[3 * j + 2], lut[3 * j + 1], lut[3 * j], 255)
    {
      rgba[i] := RGBA(lut[i * 3 + 2], lut[i * 3 + 1], lut[i * 3 + 0], 255);
      i := i + 1;
    }
  }

  /** The array built by uploadColorMap: one opaque entry per table colour
      with red and blue exchanged, so that entry i is the colour of label i
      read back to front. */
  method BuildColorMap() returns (rgba: array<RGBA>)
    ensures rgba.Length == LUT_COLOR_LABEL_LENGTH
    ensures forall i :: 0 <= i < rgba.Length ==>
      rgba[i] == RGBA(LUT[3 * i + 2], LUT[3 * i + 1], LUT[3 * i], 255)
    ensures forall i: Label :: (i as int) < rgba.Length ==> rgba[i] == ForDevice(GetLColor(i))
  {
    LutLength();
    rgba := SwapColours(LUT);
    forall j: Label | (j as int) < rgba.Length
      ensures rgba[j] == ForDevice(GetLColor(j))
    {
    }
  }
}
