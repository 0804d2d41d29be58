/** ImageJ's Blitter transfer modes on byte images as the script uses them through
    ImageProcessor.copyBits: the watershed cut (Freddy_allslices.py:58-62) and the union of
    channel masks (Freddy_allslices.py:110-114). */
module Blitting {
  import opened Wrappers
  import opened Pixels

  /** The transfer modes used: Blitter.ADD, Blitter.OR and Blitter.AND. */
  datatype Mode = Add | Or | And

  /** How one destination pixel combines with the source pixel: ADD saturates at 255,
      OR and AND are bitwise. */
  function Blend(mode: Mode, dst: Byte, src: Byte): Byte
  {
    match mode
    case Add => if dst as int + src as int > 255 then 255 else dst + src
    case Or => dst | src
    case And => dst & src
  }

  /** The destination image after copyBits(src, 0, 0, mode) with a source of the same size. */
  function Blit(dst: seq<Byte>, src: seq<Byte>, mode: Mode): (r: seq<Byte>)
    requires |src| == |dst|
    ensures |r| == |dst|
  {
    seq(|dst|, i requires 0 <= i < |dst| => Blend(mode, dst[i], src[i]))
  }

  /** An all-zero image of n pixels, as a new ByteProcessor starts. */
  function Blank(n: nat): seq<Byte>
  {
    seq(n, i => 0)
  }

  /** ip.copyBits(src, 0, 0, mode): combines every pixel of ip with the source pixel at the
      same place. */
  method CopyBits(ip: array<Byte>, src: seq<Byte>, mode: Mode)
    requires |src| == ip.Length
    modifies ip
    ensures ip[..] == Blit(old(ip[..]), src, mode)
  {
    var i := 0;
    while i < ip.Length
      invariant 0 <= i <= ip.Length
      invariant forall k :: 0 <= k < i ==> ip[k] == Blend(mode, old(ip[k]), src[k])
      invariant forall k :: i <= k < ip.Length ==> ip[k] == old(ip[k])
    {
      ip[i] := Blend(mode, ip[i], src[i]);
      i := i + 1;
    }
  }

  /** The last step of watershed: when the maxima finder produced a segmented image, its
      dividing lines (0 pixels) are cut out of the mask with AND; otherwise the mask is left
      as it is. */
  method CutWatershedLines(ip: array<Byte>, maxIp: Option<seq<Byte>>)
    requires maxIp.Some? ==> |maxIp.value| == ip.Length
    modifies ip
    ensures maxIp.None? ==> ip[..] == old(ip[..])
    ensures maxIp.Some? ==> ip[..] == Blit(old(ip[..]), maxIp.value, And)
  {
    if maxIp.Some? {
      CopyBits(ip, maxIp.value, And);
    }
  }

  /** The cut only removes foreground: every pixel keeps a subset of its bits, so its value
      can only drop; on 0/255 masks it stays 0/255 and is 255 exactly where both are. */
  lemma CutOnlyRemoves(g: seq<Byte>, lines: seq<Byte>)
    requires |lines| == |g|
    ensures forall i :: 0 <= i < |g| ==>
      Blit(g, lines, And)[i] & g[i] == Blit(g, lines, And)[i] && Blit(g, lines, And)[i] <= g[i]
    ensures IsBinary(g) && IsBinary(lines) ==> IsBinary(Blit(g, lines, And))
    ensures forall i :: 0 <= i < |g| && g[i] == 0 ==> Blit(g, lines, And)[i] == 0
  {
    forall i | 0 <= i < |g|
      ensures Blend(And, g[i], lines[i]) & g[i] == Blend(And, g[i], lines[i])
      ensures Blend(And, g[i], lines[i]) <= g[i]
    {
      AndBelow(g[i], lines[i]);
    }
  }

  /** x & y keeps a subset of the bits of x, so it is no larger than x. */
  lemma AndBelow(x: Byte, y: Byte)
    ensures (x & y) & x == x & y && x & y <= x
  {
  }

  /** The union of the three channel masks (masks[2], masks[3], masks[4]): ADD into a blank
      image, then OR, then OR. */
  function Fused(m2: seq<Byte>, m3: seq<Byte>, m4: seq<Byte>): (r: seq<Byte>)
    requires |m3| == |m2| && |m4| == |m2|
    ensures |r| == |m2|
  {
    Blit(Blit(Blit(Blank(|m2|), m2, Add), m3, Or), m4, Or)
  }

  /** Adding an image into a blank one copies it. */
  lemma AddIntoBlankCopies(s: seq<Byte>)
    ensures Blit(Blank(|s|), s, Add) == s
  {
    forall i | 0 <= i < |s|
      ensures Blit(Blank(|s|), s, Add)[i] == s[i]
    {
    }
  }

  /** The fused mask is set exactly where one of the three channel masks is set; on 0/255
      masks it is their bitwise union, is 0/255 itself and contains each of them. */
  lemma FusedIsUnion(m2: seq<Byte>, m3: seq<Byte>, m4: seq<Byte>)
    requires |m3| == |m2| && |m4| == |m2|
    ensures forall i :: 0 <= i < |m2| ==>
      (Fused(m2, m3, m4)[i] != 0 <==> m2[i] != 0 || m3[i] != 0 || m4[i] != 0)
    ensures forall i :: 0 <= i < |m2| ==> Fused(m2, m3, m4)[i] == m2[i] | m3[i] | m4[i]
    ensures IsBinary(m2) && IsBinary(m3) && IsBinary(m4) ==> IsBinary(Fused(m2, m3, m4))
    ensures forall i :: 0 <= i < |m2| && (m2[i] == 255 || m3[i] == 255 || m4[i] == 255) ==>
      Fused(m2, m3, m4)[i] == 255
  {
    AddIntoBlankCopies(m2);
  }

  /** The channel union of run: a new blank ByteProcessor of w * h pixels, then ADD of
      masks[2], OR of masks[3] and OR of masks[4]. */
  method FuseMasks(w: nat, h: nat, m2: seq<Byte>, m3: seq<Byte>, m4: seq<Byte>) returns (fused: array<Byte>)
    requires |m2| == w * h && |m3| == w * h && |m4| == w * h
    ensures fresh(fused) && fused[..] == Fused(m2, m3, m4)
  {
    fused := new Byte[w * h](i => 0);
    assert fused[..] == Blank(w * h);
    CopyBits(fused, m2, Add);
    CopyBits(fused, m3, Or);
    CopyBits(fused, m4, Or);
  }
}
