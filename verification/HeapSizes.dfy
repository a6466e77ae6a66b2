/**
 Request sizes as the heaps compute them, in 32-bit `size_t` arithmetic (lib/heap/heap_priv.h,
 lib/heap/heap_tlsf.c).
 */
module HeapSizes {
  import opened Wrap32

  /** The largest request that is aligned up, not round to zero */
  const LARGEST := WORD - 8

  /** `HEAP_ALIGN_UP`: the next multiple of 8, modulo 2^32.  So it reaches the request exactly up to `LARGEST`. */
  function AlignUp(n: nat): (r: nat)
    ensures r % 8 == 0 && r < WORD
    ensures n < WORD ==> (n <= r <==> n <= LARGEST)
    ensures n <= LARGEST ==> r < n + 8
    ensures LARGEST < n < WORD ==> r == 0
  {
    (n + 7) % WORD / 8 * 8
  }

  /** The bytes of a request that its caller can count on */
  function Room(n: nat): nat { if n <= LARGEST then n else 0 }
}
