/** The integer part of the BumpToNormal tool (BumpToNormal/main.cpp): the
    prompt loop, and the wrapped neighbour and texel indices of the
    per-pixel stencil, computed in `size_t` arithmetic. */
module Bump {
  /** `size_t` is 64 bits wide; its arithmetic wraps modulo 2^64. */
  const SizeModulus: nat := 0x1_0000_0000_0000_0000

  /** `int` dimensions from the image decoder are below 2^31. */
  const IntLimit: nat := 0x8000_0000

  function AddSize(a: nat, b: nat): nat { (a + b) % SizeModulus }
  function SubSize(a: nat, b: nat): nat { (a - b) % SizeModulus }
  function MulSize(a: nat, b: nat): nat { (a * b) % SizeModulus }

  /** `(i + 1) % n`: the next index, wrapping from the last to 0 (`rightX`,
      `downY`). */
  function Next(i: nat, n: nat): (r: nat)
    requires i < n < IntLimit
    ensures r < n
    ensures r == (if i < n - 1 then i + 1 else 0)
  {
    ModWrap(i, n);
    AddSize(i, 1) % n
  }

  /** `(n + (i - 1)) % n`: the previous index, wrapping from 0 to the last
      (`leftX`, `upY`). For `i == 0` the subtraction wraps to 2^64 - 1 and
      the addition wraps back to `n - 1`. */
  function Prev(i: nat, n: nat): (r: nat)
    requires i < n < IntLimit
    ensures r < n
    ensures r == (if i > 0 then i - 1 else n - 1)
  {
    PrevWrap(i, n);
    AddSize(n, SubSize(i, 1)) % n
  }

  lemma PrevWrap(i: nat, n: nat)
    requires i < n < IntLimit
    ensures AddSize(n, SubSize(i, 1)) == (if i == 0 then n - 1 else n + (i - 1))
    ensures AddSize(n, SubSize(i, 1)) % n == (if i > 0 then i - 1 else n - 1)
  {
    if i == 0 {
      assert SubSize(i, 1) == SizeModulus - 1;
      DivModUnique(n + (SizeModulus - 1), SizeModulus, 1, n - 1);
      DivModUnique(n - 1, n, 0, n - 1);
    } else {
      assert SubSize(i, 1) == i - 1;
      DivModUnique(n + (i - 1), n, 1, i - 1);
    }
  }

  /** `(i + 1) % n` for an index below `n`: the successor, or 0 at the end. */
  lemma ModWrap(i: nat, n: nat)
    requires i < n < IntLimit
    ensures AddSize(i, 1) == i + 1
    ensures (i + 1) % n == (if i < n - 1 then i + 1 else 0)
  {
    if i < n - 1 {
      DivModUnique(i + 1, n, 0, i + 1);
    } else {
      DivModUnique(n, n, 1, 0);
    }
  }

  lemma {:induction false} MulMono(a: nat, b: nat, n: nat)
    requires a <= b
    ensures a * n <= b * n
    decreases b - a
  {
    if a < b {
      MulMono(a, b - 1, n);
      assert b * n == (b - 1) * n + n;
    }
  }

  /** A smaller factor's product is at least `n` below a larger one's. */
  lemma NextMultiple(a: nat, b: nat, n: nat)
    ensures a < b ==> a * n + n <= b * n
  {
    if a < b {
      assert (a + 1) * n == a * n + n;
      MulMono(a + 1, b, n);
    }
  }

  /** Euclidean division is unique: `q * n + r` with `r < n` divides into
      quotient `q` and remainder `r`. */
  lemma DivModUnique(k: nat, n: nat, q: nat, r: nat)
    requires r < n && k == q * n + r
    ensures k / n == q && k % n == r
  {
    var q', r' := k / n, k % n;
    assert k == q' * n + r';
    NextMultiple(q', q, n);
    NextMultiple(q, q', n);
  }

  /** `y * width + x`. */
  function TexelId(x: nat, y: nat, width: nat): nat {
    AddSize(MulSize(y, width), x)
  }

  /** Inside the image the texel id does not wrap and is the row-major
      position of the texel, below `width * height`. */
  lemma TexelIdInRange(x: nat, y: nat, width: nat, height: nat)
    requires x < width < IntLimit && y < height < IntLimit
    ensures TexelId(x, y, width) == y * width + x
    ensures TexelId(x, y, width) < width * height
  {
    var p := y * width;
    assert p + x < width * height by {
      MulMono(y + 1, height, width);
      assert (y + 1) * width == p + width;
    }
    assert width * height < SizeModulus by {
      MulMono(width, IntLimit, height);
      MulMono(height, IntLimit, IntLimit);
    }
    assert MulSize(y, width) == p;
    assert AddSize(p, x) == p + x;
  }

  /** The five texels the stencil reads for pixel `(x, y)`. */
  datatype Stencil = Stencil(center: nat, right: nat, down: nat, left: nat, up: nat)

  function StencilAt(x: nat, y: nat, width: nat, height: nat): (s: Stencil)
    requires x < width < IntLimit && y < height < IntLimit
    ensures s.center == y * width + x
    ensures s.center < width * height && s.right < width * height && s.down < width * height
            && s.left < width * height && s.up < width * height
    ensures s.right == y * width + (if x < width - 1 then x + 1 else 0)
    ensures s.left == y * width + (if x > 0 then x - 1 else width - 1)
    ensures s.down == (if y < height - 1 then y + 1 else 0) * width + x
    ensures s.up == (if y > 0 then y - 1 else height - 1) * width + x
  {
    var rightX, leftX := Next(x, width), Prev(x, width);
    var downY, upY := Next(y, height), Prev(y, height);
    TexelIdInRange(x, y, width, height);
    TexelIdInRange(rightX, y, width, height);
    TexelIdInRange(x, downY, width, height);
    TexelIdInRange(leftX, y, width, height);
    TexelIdInRange(x, upY, width, height);
    Stencil(TexelId(x, y, width), TexelId(rightX, y, width), TexelId(x, downY, width),
            TexelId(leftX, y, width), TexelId(x, upY, width))
  }

  /** Row-major position `y * width + x` determines `x` and `y` back. */
  lemma RowMajor(x: nat, y: nat, width: nat)
    requires x < width
    ensures (y * width + x) % width == x && (y * width + x) / width == y
  {
    DivModUnique(y * width + x, width, y, x);
  }

  /** A row-major position inside the image lies on one of its rows. */
  lemma RowInside(k: nat, width: nat, height: nat)
    requires k < width * height
    ensures width > 0 && k / width < height
  {
    if k / width >= height {
      MulMono(height, k / width, width);
      assert false;
    }
  }

  /** The stencil of the pixel at row-major position `k`. */
  function PixelStencil(k: nat, width: nat, height: nat): (s: Stencil)
    requires width < IntLimit && height < IntLimit && k < width * height
    ensures s.center == k
    ensures s.right < width * height && s.down < width * height && s.left < width * height && s.up < width * height
  {
    RowInside(k, width, height);
    var y, x := k / width, k % width;
    assert y * width + x == k;
    StencilAt(x, y, width, height)
  }

  /** The conversion loops: rows outer, columns inner. The stencils in
      visiting order; pixel `k` of the output is written by visit `k`, so
      each of the `width * height` pixels is written exactly once, and
      every texel read lies inside the image. */
  method Convert(width: nat, height: nat) returns (visits: seq<Stencil>)
    requires width < IntLimit && height < IntLimit
    ensures |visits| == width * height
    ensures forall k | 0 <= k < |visits| :: visits[k].center == k
    ensures forall k | 0 <= k < |visits| :: visits[k] == PixelStencil(k, width, height)
  {
    visits := [];
    var y := 0;
    while y < height
      invariant 0 <= y <= height
      invariant |visits| == y * width && |visits| <= width * height
      invariant forall k | 0 <= k < |visits| :: visits[k] == PixelStencil(k, width, height)
    {
      MulMono(y + 1, height, width);
      assert (y + 1) * width == y * width + width;
      var x := 0;
      while x < width
        invariant 0 <= x <= width
        invariant |visits| == y * width + x
        invariant forall k | 0 <= k < |visits| :: visits[k] == PixelStencil(k, width, height)
      {
        RowMajor(x, y, width);
        assert PixelStencil(y * width + x, width, height) == StencilAt(x, y, width, height);
        visits := visits + [StencilAt(x, y, width, height)];
        x := x + 1;
      }
      y := y + 1;
    }
  }

  /** The prompt loop reads one whitespace-separated token per iteration
      from `tokens`. At the end of input the extraction fails and leaves
      `command` as it was. */
  function Read(tokens: seq<string>, i: nat, command: string): string {
    if i < |tokens| then tokens[i] else command
  }

  /** As written: at most `iterations` iterations, starting from the empty
      `command`. The loop stops on "quit" or an empty command; every other
      command is a file to convert. */
  function PromptAsWritten(tokens: seq<string>, i: nat, command: string, iterations: nat): seq<string>
    decreases iterations
  {
    if iterations == 0 then []
    else
      var c := Read(tokens, i, command);
      if c == "quit" || c == "" then []
      else [c] + PromptAsWritten(tokens, i + 1, c, iterations - 1)
  }

  /** The position of the first "quit" or empty token, or the end. */
  function FirstStop(tokens: seq<string>): (q: nat)
    ensures q <= |tokens|
    ensures forall i | 0 <= i < q :: tokens[i] != "quit" && tokens[i] != ""
    ensures q < |tokens| ==> tokens[q] == "quit" || tokens[q] == ""
    decreases |tokens|
  {
    if |tokens| == 0 || tokens[0] == "quit" || tokens[0] == "" then 0 else 1 + FirstStop(tokens[1..])
  }

  /** As evidently intended: the loop also stops at the end of input. The
      files attempted are the tokens before the first "quit", in order; a
      file that fails to decode is skipped and the prompt continues. */
  function Prompt(tokens: seq<string>): (files: seq<string>)
    ensures files == tokens[..FirstStop(tokens)]
    ensures "quit" !in files && "" !in files
    decreases |tokens|
  {
    if |tokens| == 0 || tokens[0] == "quit" || tokens[0] == "" then []
    else [tokens[0]] + Prompt(tokens[1..])
  }

  /** When input holds a "quit" the two loops agree, given enough
      iterations to reach it. */
  lemma {:induction false} AsWrittenAgreesWithQuit(tokens: seq<string>, i: nat, command: string, iterations: nat)
    requires i < |tokens| && i + FirstStop(tokens[i..]) < |tokens|
    requires iterations > FirstStop(tokens[i..])
    ensures PromptAsWritten(tokens, i, command, iterations) == Prompt(tokens[i..])
    decreases iterations
  {
    var rest := tokens[i..];
    assert rest[0] == tokens[i];
    assert Read(tokens, i, command) == tokens[i];
    if tokens[i] != "quit" && tokens[i] != "" {
      assert rest[1..] == tokens[i + 1..];
      assert FirstStop(rest) == 1 + FirstStop(tokens[i + 1..]);
      assert Prompt(rest) == [tokens[i]] + Prompt(tokens[i + 1..]);
      AsWrittenAgreesWithQuit(tokens, i + 1, tokens[i], iterations - 1);
    }
  }

  /** Once input runs out without a "quit", the loop as written keeps
      converting the last file: every further iteration repeats it. */
  lemma {:induction false} EofRepeatsLastFile(tokens: seq<string>, i: nat, last: string, iterations: nat)
    requires |tokens| <= i && last != "quit" && last != ""
    ensures PromptAsWritten(tokens, i, last, iterations) == seq(iterations, _ => last)
    decreases iterations
  {
    if iterations > 0 {
      EofRepeatsLastFile(tokens, i + 1, last, iterations - 1);
      assert seq(iterations, _ => last) == [last] + seq(iterations - 1, _ => last);
    }
  }

  /** A concrete input: one file name, then end of input. */
  lemma OneFileThenEof()
    ensures Prompt(["normal.png"]) == ["normal.png"]
    ensures PromptAsWritten(["normal.png"], 0, "", 3) == ["normal.png", "normal.png", "normal.png"]
  {
    EofRepeatsLastFile(["normal.png"], 1, "normal.png", 2);
  }
}
