/** The packet filter of XDP/xdp_pixelflut.c: IPv6 frames paint a framebuffer.

  A frame carries a pixel in the last eight bytes of its destination address: two bytes x, two
  bytes y, three bytes colour.
 */
module Framebuffer {
  import opened Wrappers

  type Byte = bv8
  type Colour = bv32

  const WIDTH := 1280
  const HEIGHT := 720
  const CELLS := WIDTH * HEIGHT
  const ETH_LEN := 14
  const IP6_LEN := 40
  const DADDR := 24

  datatype Verdict = Aborted | Drop | Pass | Tx

  datatype Pixel = Pixel(x: nat, y: nat, rgb: Colour)

  /** A complete IPv6 frame, by its length and EtherType. */
  predicate CompleteIpv6(f: seq<Byte>) {
    |f| >= ETH_LEN + IP6_LEN && f[12] == 0x86 && f[13] == 0xDD
  }

  function Word(hi: Byte, lo: Byte): nat {
    256 * (hi as nat) + (lo as nat)
  }

  function Rgb(r: Byte, g: Byte, b: Byte): Colour {
    (((r as bv32) << 24) | ((g as bv32) << 16)) | ((b as bv32) << 8)
  }

  /** The pixel a frame addresses, if it is on the screen. */
  function Decode(f: seq<Byte>): Option<Pixel> {
    if !CompleteIpv6(f) then None
    else
      var x, y := Word(f[46], f[47]), Word(f[48], f[49]);
      if x < WIDTH && y < HEIGHT then Some(Pixel(x, y, Rgb(f[50], f[51], f[52]))) else None
  }

  /** Shifting and or-ing two bytes, as the filter does, reads the big-endian number. */
  lemma ShiftedBytes(hi: Byte, lo: Byte)
    ensures (((hi as bv32) << 8) | (lo as bv32)) as nat == 256 * (hi as nat) + (lo as nat)
  {
    var h, l := hi as bv32, lo as bv32;
    assert (h << 8) | l == h * 256 + l;
  }

  method Coordinate(hi: Byte, lo: Byte) returns (n: nat)
    ensures n == Word(hi, lo)
  {
    ShiftedBytes(hi, lo);
    n := (((hi as bv32) << 8) | (lo as bv32)) as nat;
  }

  /** The three channels can be read back from a cell and the padding byte is zero. */
  lemma ChannelsReadBack(r: Byte, g: Byte, b: Byte)
    ensures Rgb(r, g, b) >> 24 == r as bv32
    ensures (Rgb(r, g, b) >> 16) & 0xFF == g as bv32
    ensures (Rgb(r, g, b) >> 8) & 0xFF == b as bv32
    ensures Rgb(r, g, b) & 0xFF == 0
  {}

  lemma DecodeIs(f: seq<Byte>)
    ensures Decode(f).Some? ==> |f| >= ETH_LEN + IP6_LEN && f[12] == 0x86 && f[13] == 0xDD
    ensures (|f| >= ETH_LEN + IP6_LEN && f[12] == 0x86 && f[13] == 0xDD ==>
               var x, y := Word(f[46], f[47]), Word(f[48], f[49]);
               Decode(f) == if x < WIDTH && y < HEIGHT then Some(Pixel(x, y, Rgb(f[50], f[51], f[52]))) else None)
  {
    hide Word, Rgb;
  }

  function Index(x: nat, y: nat): (i: nat)
    requires x < WIDTH && y < HEIGHT
    ensures i < CELLS
  {
    x + y * WIDTH
  }

  /** No two pixels share a cell. */
  lemma IndexInjective(x: nat, y: nat, x': nat, y': nat)
    requires x < WIDTH && y < HEIGHT && x' < WIDTH && y' < HEIGHT
    ensures Index(x, y) == Index(x', y') <==> x == x' && y == y'
  {
    assert Index(x, y) % WIDTH == x && Index(x', y') % WIDTH == x';
  }

  /** No cell is without a pixel. */
  lemma IndexOnto(i: nat)
    requires i < CELLS
    ensures i % WIDTH < WIDTH && i / WIDTH < HEIGHT && Index(i % WIDTH, i / WIDTH) == i
  {}

  /** The screen after a sequence of frames. */
  function Paint(cells: seq<Colour>, frames: seq<seq<Byte>>): (r: seq<Colour>)
    requires |cells| == CELLS
    ensures |r| == CELLS
  {
    if frames == [] then cells
    else
      var before := Paint(cells, frames[..|frames| - 1]);
      match Decode(frames[|frames| - 1])
      case None => before
      case Some(p) => before[Index(p.x, p.y) := p.rgb]
  }

  /** What one frame does, byte by byte: behind an IPv6 header that is all there, bytes 46 to 49 are
      the big-endian coordinates of a pixel of the 1280 x 720 screen and bytes 50 to 52 its three
      channels, from the top of the cell down; any other frame, and one off the screen, paints
      nothing. */
  lemma FramePaints(cells: seq<Colour>, f: seq<Byte>)
    requires |cells| == CELLS
    ensures (|f| >= 54 && f[12] == 0x86 && f[13] == 0xDD ==>
               var x, y := 256 * (f[46] as nat) + f[47] as nat, 256 * (f[48] as nat) + f[49] as nat;
               if x < 1280 && y < 720 then
                 var cell := Paint(cells, [f])[x + 1280 * y];
                 && cell >> 24 == f[50] as Colour && (cell >> 16) & 0xFF == f[51] as Colour
                 && (cell >> 8) & 0xFF == f[52] as Colour && cell & 0xFF == 0
                 && forall i | 0 <= i < |cells| && i != x + 1280 * y :: Paint(cells, [f])[i] == cells[i]
               else Paint(cells, [f]) == cells)
    ensures |f| < 54 || f[12] != 0x86 || f[13] != 0xDD ==> Paint(cells, [f]) == cells
  {
    PaintOne(cells, f);
    DecodeIs(f);
    if CompleteIpv6(f) { ChannelsReadBack(f[50], f[51], f[52]); }
    hide Paint, Rgb, Decode;
  }

  /** Frame k paints pixel (x, y). */
  predicate Paints(frames: seq<seq<Byte>>, k: nat, x: nat, y: nat)
    requires k < |frames|
  {
    var d := Decode(frames[k]);
    d.Some? && d.value.x == x && d.value.y == y
  }

  /** A cell holds the colour of the last frame that painted it ... */
  lemma {:induction false} LastPainterWins(cells: seq<Colour>, frames: seq<seq<Byte>>, k: nat, x: nat, y: nat)
    requires |cells| == CELLS && x < WIDTH && y < HEIGHT
    requires k < |frames| && Paints(frames, k, x, y)
    requires forall j | k < j < |frames| :: !Paints(frames, j, x, y)
    ensures Paint(cells, frames)[Index(x, y)] == Decode(frames[k]).value.rgb
    decreases |frames|
  {
    hide Index, Decode;
    var n := |frames| - 1;
    if k < n {
      var earlier := frames[..n];
      assert Paints(earlier, k, x, y) && !Paints(frames, n, x, y);
      forall j | k < j < n ensures !Paints(earlier, j, x, y) {
        assert !Paints(frames, j, x, y);
      }
      LastPainterWins(cells, earlier, k, x, y);
      OtherPixel(Paint(cells, earlier), frames[n], x, y);
    }
  }

  /** ... and its initial value when there was none. */
  lemma {:induction false} UnpaintedKeeps(cells: seq<Colour>, frames: seq<seq<Byte>>, x: nat, y: nat)
    requires |cells| == CELLS && x < WIDTH && y < HEIGHT
    requires forall j | 0 <= j < |frames| :: !Paints(frames, j, x, y)
    ensures Paint(cells, frames)[Index(x, y)] == cells[Index(x, y)]
    decreases |frames|
  {
    hide Index, Decode;
    if frames != [] {
      var n := |frames| - 1;
      var earlier := frames[..n];
      assert !Paints(frames, n, x, y);
      forall j | 0 <= j < n ensures !Paints(earlier, j, x, y) {
        assert !Paints(frames, j, x, y);
      }
      UnpaintedKeeps(cells, earlier, x, y);
      OtherPixel(Paint(cells, earlier), frames[n], x, y);
    }
  }

  lemma OnScreen(f: seq<Byte>)
    requires Decode(f).Some?
    ensures Decode(f).value.x < WIDTH && Decode(f).value.y < HEIGHT
  {}

  lemma OtherPixel(cells: seq<Colour>, f: seq<Byte>, x: nat, y: nat)
    requires |cells| == CELLS && x < WIDTH && y < HEIGHT && !Paints([f], 0, x, y)
    ensures var d := Decode(f);
            d.Some? ==>
              && d.value.x < WIDTH && d.value.y < HEIGHT
              && cells[Index(d.value.x, d.value.y) := d.value.rgb][Index(x, y)] == cells[Index(x, y)]
  {
    hide Index, Decode;
    var d := Decode(f);
    if d.Some? {
      OnScreen(f);
      IndexInjective(x, y, d.value.x, d.value.y);
    }
  }

  /** The BPF array map and the program attached to it. */
  class Screen {
    const cells: array<Colour>

    ghost predicate Valid() {
      cells.Length == CELLS
    }

    constructor ()
      ensures Valid() && fresh(cells)
      ensures forall i | 0 <= i < CELLS :: cells[i] == 0
    {
      cells := new Colour[CELLS](_ => 0);
    }

    /** xdp_pixelflut: one frame.  Every frame is dropped; at most one cell changes. */
    method Receive(data: seq<Byte>) returns (v: Verdict)
      requires Valid()
      modifies cells
      ensures v == Drop
      ensures cells[..] == Paint(old(cells[..]), [data])
    {
      PaintOne(cells[..], data);
      DecodeIs(data);
      hide Paint, Word, Rgb, Decode;
      if ETH_LEN > |data| { return Drop; }
      if data[12] == 0x86 && data[13] == 0xDD {
        var ip6h := ETH_LEN;
        if ip6h + IP6_LEN > |data| { return Drop; }
        var dst := data[ip6h + DADDR..ip6h + DADDR + 16];
        var x := Coordinate(dst[8], dst[9]);
        var y := Coordinate(dst[10], dst[11]);
        var rgb := Rgb(dst[12], dst[13], dst[14]);
        if x >= WIDTH || y >= HEIGHT { return Drop; }
        var index := x + y * WIDTH;
        cells[index] := rgb;
      }
      v := Drop;
    }

    /** A whole run of the program. */
    method ReceiveAll(frames: seq<seq<Byte>>)
      requires Valid()
      modifies cells
      ensures cells[..] == Paint(old(cells[..]), frames)
    {
      for k := 0 to |frames|
        invariant cells[..] == Paint(old(cells[..]), frames[..k])
      {
        PaintMore(old(cells[..]), frames, k);
        var _ := Receive(frames[k]);
      }
      assert frames[..|frames|] == frames;
    }
  }

  lemma PaintOne(cells: seq<Colour>, f: seq<Byte>)
    requires |cells| == CELLS
    ensures Paint(cells, [f]) == (match Decode(f) case None => cells case Some(p) => cells[Index(p.x, p.y) := p.rgb])
  {
    assert [f][..0] == [];
  }

  lemma PaintMore(cells: seq<Colour>, frames: seq<seq<Byte>>, k: nat)
    requires |cells| == CELLS && k < |frames|
    ensures Paint(cells, frames[..k + 1]) == Paint(Paint(cells, frames[..k]), [frames[k]])
  {
    PaintOne(Paint(cells, frames[..k]), frames[k]);
    assert frames[..k + 1][..k] == frames[..k];
  }
}
