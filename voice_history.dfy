/**
 * The conversation history the voice client keeps and sends to the voice
 * backend: a list of `{type, content}` entries, cut to its newest items by
 * JavaScript's `slice(-n)` in the browser and Python's `[-n:]` on the server.
 */
module VoiceHistory {

  /** One history item: `type` is "user" or "assistant" when the browser writes it. */
  datatype Entry = Entry(kind: string, content: string)

  const UserKind: string := "user"
  const AssistantKind: string := "assistant"

  function Min(a: int, b: int): int { if a < b then a else b }

  /**
   * `xs.slice(-n)` in JavaScript and `xs[-n:]` in Python: the newest `n`
   * items, all of them when there are fewer, and (as both languages read
   * `-0` as `0`) all of them when `n` is 0.
   */
  function LastN<T>(xs: seq<T>, n: nat): (r: seq<T>)
    ensures n > 0 ==> |r| == Min(n, |xs|)
    ensures n == 0 ==> r == xs
    ensures r == xs[|xs| - |r|..]
  {
    if n == 0 || |xs| <= n then xs else xs[|xs| - n..]
  }

  /** The `i`-th kept item is the `i`-th of the newest `|LastN(xs, n)|` items: order is preserved and the oldest go first. */
  lemma LastNAt<T>(xs: seq<T>, n: nat, i: nat)
    requires i < |LastN(xs, n)|
    ensures LastN(xs, n)[i] == xs[|xs| - |LastN(xs, n)| + i]
  {
  }

  /** Cutting to `m` and then to a smaller `n` is cutting to `n`: the shorter window only ever sees the newest items. */
  lemma LastNOfLastN<T>(xs: seq<T>, m: nat, n: nat)
    requires 0 < n <= m
    ensures LastN(LastN(xs, m), n) == LastN(xs, n)
  {
  }

  /**
   * Cutting after every append is the same as cutting once at the end: what
   * a cut drops could never have come back into the window.
   */
  lemma {:induction false} LastNAppend<T>(xs: seq<T>, ys: seq<T>, n: nat)
    requires n > 0
    ensures LastN(LastN(xs, n) + ys, n) == LastN(xs + ys, n)
  {
    var k := |LastN(xs, n)|;
    if k == |xs| {
      assert LastN(xs, n) == xs;
    } else {
      assert xs == xs[..|xs| - n] + LastN(xs, n);
      assert xs + ys == xs[..|xs| - n] + (LastN(xs, n) + ys);
      var zs := LastN(xs, n) + ys;
      assert (xs + ys)[|xs + ys| - n..] == zs[|zs| - n..];
    }
  }
}
