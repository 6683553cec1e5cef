/**
 * `Injector`, the file-like wrapper that `parse` reads through on its
 * second attempt: it passes the bytes on unchanged until the first read
 * that contains a '>', splices the entity DOCTYPE in right after that
 * '>', and from then on serves the spliced text from its cache.
 *
 * Both generations have the same `read`; the newer one wraps the bytes in
 * a `BytesIO`, the older one the caller's file object.  Either way the
 * unread rest of the underlying stream is `rest`.  The DOCTYPE text,
 * built from the HTML entity table, is a constructor argument.
 */
module Injection {
  import Intake

  type Byte = Intake.Byte

  const Gt: Byte := 0x3E   // '>'

  /** `s[:n]` for a non-negative `n`. */
  function Head(s: seq<Byte>, n: nat): (r: seq<Byte>)
    ensures |r| == if n < |s| then n else |s|
    ensures r == s[..|r|]
  {
    if n < |s| then s[..n] else s
  }

  /** `s[n:]` for a non-negative `n`. */
  function Tail(s: seq<Byte>, n: nat): (r: seq<Byte>)
    ensures Head(s, n) + r == s
  {
    if n < |s| then s[n..] else []
  }

  /** The index of the first `b` in `s`. */
  function FirstIndex(s: seq<Byte>, b: Byte): (j: nat)
    requires b in s
    ensures j < |s| && s[j] == b && b !in s[..j]
  {
    if s[0] == b then 0
    else
      assert s == [s[0]] + s[1..];
      var j := FirstIndex(s[1..], b);
      assert s[..j + 1] == [s[0]] + s[1..][..j];
      j + 1
  }

  /** The text with `doctype + '>'` inserted right after its first '>', or the text itself. */
  function Injected(s: seq<Byte>, doctype: seq<Byte>): seq<Byte>
  {
    if Gt in s then
      var j := FirstIndex(s, Gt);
      s[..j + 1] + doctype + [Gt] + s[j + 1..]
    else s
  }

  /**
   * How the bytes handed out so far, the cache and the unread rest of the
   * stream account for the whole input: before injection the cache is
   * empty and no '>' has gone out; after it, the three together are the
   * injected text.
   */
  predicate Accounts(original: seq<Byte>, doctype: seq<Byte>, emitted: seq<Byte>,
                     cache: seq<Byte>, rest: seq<Byte>, injected: bool)
  {
    if injected then emitted + cache + rest == Injected(original, doctype)
    else cache == [] && Gt !in emitted && emitted + rest == original
  }

  /** The bytes a `read(size)` takes: the head of the cache, then from the stream. */
  function Taken(cache: seq<Byte>, rest: seq<Byte>, size: nat): seq<Byte>
  {
    Head(cache, size) + (if |cache| < size then Head(rest, size - |cache|) else [])
  }

  /** What the stream still holds after that read. */
  function Left(cache: seq<Byte>, rest: seq<Byte>, size: nat): seq<Byte>
  {
    if |cache| < size then Tail(rest, size - |cache|) else rest
  }

  /** The first '>' of `t` followed by the DOCTYPE and its closing '>'. */
  function Spliced(t: seq<Byte>, doctype: seq<Byte>): seq<Byte>
    requires Gt in t
  {
    var j := FirstIndex(t, Gt);
    t[..j] + [Gt] + doctype + [Gt] + t[j + 1..]
  }

  /** One `read(size)`: (bytes returned, new cache, new rest, new injected). */
  function Step(cache: seq<Byte>, rest: seq<Byte>, injected: bool, doctype: seq<Byte>, size: nat)
    : (r: (seq<Byte>, seq<Byte>, seq<Byte>, bool))
    ensures |r.0| <= size
    ensures size > 0 && (cache != [] || rest != []) ==> r.0 != []
  {
    var taken := Taken(cache, rest, size);
    if injected || Gt !in taken then (taken, Tail(cache, size), Left(cache, rest, size), injected)
    else
      var spliced := Spliced(taken, doctype);
      (Head(spliced, size), Tail(spliced, size), Left(cache, rest, size), true)
  }

  /** A '>' at `m` with none before it is the first one. */
  lemma {:induction false} FirstIndexUnique(s: seq<Byte>, b: Byte, m: nat)
    requires m < |s| && s[m] == b && forall i :: 0 <= i < m ==> s[i] != b
    ensures FirstIndex(s, b) == m
    decreases m
  {
    if m > 0 {
      assert s[0] != b;
      FirstIndexUnique(s[1..], b, m - 1);
    }
  }

  /** The first '>' of a text whose first part has none lies in the second part. */
  lemma FirstIndexAfter(e: seq<Byte>, t: seq<Byte>, rest: seq<Byte>)
    requires Gt !in e && Gt in t
    ensures Gt in e + t + rest && FirstIndex(e + t + rest, Gt) == |e| + FirstIndex(t, Gt)
  {
    var s := e + t + rest;
    var j := FirstIndex(t, Gt);
    assert s[|e| + j] == Gt;
    forall i | 0 <= i < |e| + j
      ensures s[i] != Gt
    {
      if i < |e| {
        assert s[i] == e[i];
      } else {
        assert s[i] == t[..j][i - |e|];
      }
    }
    FirstIndexUnique(s, Gt, |e| + j);
  }

  /** A read loses nothing: what it takes, the cache left and the stream left are what there was. */
  lemma ReadLosesNothing(cache: seq<Byte>, rest: seq<Byte>, size: nat)
    ensures Taken(cache, rest, size) + Tail(cache, size) + Left(cache, rest, size) == cache + rest
  {
    if |cache| < size {
      assert Head(cache, size) == cache && Tail(cache, size) == [];
      assert Head(rest, size - |cache|) + Tail(rest, size - |cache|) == rest;
    } else {
      assert Head(cache, size) + Tail(cache, size) == cache;
    }
  }

  /** Cutting `e + t + rest` just after position `j` of `t`. */
  lemma CutAt(e: seq<Byte>, t: seq<Byte>, rest: seq<Byte>, j: nat)
    requires j < |t|
    ensures (e + t + rest)[..|e| + j + 1] == e + t[..j + 1]
    ensures (e + t + rest)[|e| + j + 1..] == t[j + 1..] + rest
    ensures t[..j + 1] == t[..j] + [t[j]]
  {
    assert t == t[..j + 1] + t[j + 1..];
  }

  /** The read that meets the first '>' turns the account into one of the injected text. */
  lemma SpliceAccounts(original: seq<Byte>, doctype: seq<Byte>, emitted: seq<Byte>, taken: seq<Byte>, rest: seq<Byte>)
    requires Gt !in emitted && Gt in taken && emitted + taken + rest == original
    ensures Injected(original, doctype) == emitted + Spliced(taken, doctype) + rest
  {
    var j := FirstIndex(taken, Gt);
    var k := |emitted| + j;
    assert Gt in original && FirstIndex(original, Gt) == k by {
      FirstIndexAfter(emitted, taken, rest);
    }
    var before, after := taken[..j] + [Gt], taken[j + 1..];
    CutAt(emitted, taken, rest, j);
    calc {
      Injected(original, doctype);
      original[..k + 1] + doctype + [Gt] + original[k + 1..];
      emitted + before + doctype + [Gt] + (after + rest);
      emitted + (before + doctype + [Gt] + after) + rest;
    }
  }

  lemma Regroup(e: seq<Byte>, a: seq<Byte>, b: seq<Byte>, c: seq<Byte>)
    ensures e + a + b + c == e + (a + b) + c
  {
  }

  /** Every `read` keeps the account. */
  lemma StepAccounts(original: seq<Byte>, doctype: seq<Byte>, emitted: seq<Byte>,
                     cache: seq<Byte>, rest: seq<Byte>, injected: bool, size: nat)
    requires Accounts(original, doctype, emitted, cache, rest, injected)
    ensures var r := Step(cache, rest, injected, doctype, size);
      Accounts(original, doctype, emitted + r.0, r.1, r.2, r.3)
  {
    if injected {
      StepServesCache(original, doctype, emitted, cache, rest, size);
    } else {
      StepBeforeInjection(original, doctype, emitted, rest, size);
    }
  }

  /** After injection a read hands out the next bytes of the injected text. */
  lemma StepServesCache(original: seq<Byte>, doctype: seq<Byte>, emitted: seq<Byte>,
                        cache: seq<Byte>, rest: seq<Byte>, size: nat)
    requires emitted + cache + rest == Injected(original, doctype)
    ensures var r := Step(cache, rest, true, doctype, size);
      r.3 && emitted + r.0 + r.1 + r.2 == Injected(original, doctype)
  {
    var taken, left := Taken(cache, rest, size), Left(cache, rest, size);
    ReadLosesNothing(cache, rest, size);
    Regroup(emitted, taken, Tail(cache, size), left);
  }

  /** Before injection a read passes bytes through, or splices at the first '>'. */
  lemma StepBeforeInjection(original: seq<Byte>, doctype: seq<Byte>, emitted: seq<Byte>, rest: seq<Byte>, size: nat)
    requires Gt !in emitted && emitted + rest == original
    ensures var r := Step([], rest, false, doctype, size);
      Accounts(original, doctype, emitted + r.0, r.1, r.2, r.3)
  {
    if Gt in Taken([], rest, size) {
      SpliceRead(original, doctype, emitted, rest, size);
    } else {
      PlainRead(original, doctype, emitted, rest, size);
    }
  }

  /** The bytes taken from the stream and the bytes left there make up the stream. */
  lemma StreamRead(rest: seq<Byte>, size: nat)
    ensures Taken([], rest, size) + Left([], rest, size) == rest
  {
    var e: seq<Byte> := [];
    assert Head(e, size) == [];
    if size > 0 {
      assert Taken(e, rest, size) == Head(rest, size) && Left(e, rest, size) == Tail(rest, size);
    } else {
      assert Taken(e, rest, size) == [] && Left(e, rest, size) == rest;
    }
  }

  lemma PlainRead(original: seq<Byte>, doctype: seq<Byte>, emitted: seq<Byte>, rest: seq<Byte>, size: nat)
    requires Gt !in emitted && emitted + rest == original && Gt !in Taken([], rest, size)
    ensures var r := Step([], rest, false, doctype, size);
      !r.3 && r.1 == [] && Gt !in emitted + r.0 && emitted + r.0 + r.2 == original
  {
    StreamRead(rest, size);
    assert Tail([], size) == [];
  }

  lemma SpliceRead(original: seq<Byte>, doctype: seq<Byte>, emitted: seq<Byte>, rest: seq<Byte>, size: nat)
    requires Gt !in emitted && emitted + rest == original && Gt in Taken([], rest, size)
    ensures var r := Step([], rest, false, doctype, size);
      r.3 && emitted + r.0 + r.1 + r.2 == Injected(original, doctype)
  {
    var taken, left := Taken([], rest, size), Left([], rest, size);
    StreamRead(rest, size);
    SpliceStep(original, doctype, emitted, taken, left, size);
  }

  /** The splicing read: what it returns and caches is the spliced text. */
  lemma SpliceStep(original: seq<Byte>, doctype: seq<Byte>, emitted: seq<Byte>, taken: seq<Byte>, left: seq<Byte>, size: nat)
    requires Gt !in emitted && Gt in taken && emitted + taken + left == original
    ensures var spliced := Spliced(taken, doctype);
      emitted + Head(spliced, size) + Tail(spliced, size) + left == Injected(original, doctype)
  {
    var spliced := Spliced(taken, doctype);
    SpliceAccounts(original, doctype, emitted, taken, left);
    Regroup(emitted, Head(spliced, size), Tail(spliced, size), left);
  }

  /** Once the cache and the stream are drained, the reads spell the injected text. */
  lemma Drained(original: seq<Byte>, doctype: seq<Byte>, emitted: seq<Byte>, injected: bool)
    requires Accounts(original, doctype, emitted, [], [], injected)
    ensures emitted == Injected(original, doctype)
  {
    if !injected {
      assert emitted == original;
    } else {
      assert emitted + [] + [] == emitted;
    }
  }

  /** A text without '>' passes through unchanged. */
  lemma NoTagNoInjection(s: seq<Byte>, doctype: seq<Byte>)
    requires Gt !in s
    ensures Injected(s, doctype) == s
  {
  }

  class Injector {
    const doctype: seq<Byte>
    ghost const original: seq<Byte>
    var rest: seq<Byte>
    var cache: seq<Byte>
    var injected: bool
    /** Everything `read` has returned so far. */
    ghost var emitted: seq<Byte>

    ghost predicate Valid()
      reads this
    {
      Accounts(original, doctype, emitted, cache, rest, injected)
    }

    constructor (content: seq<Byte>, doctype: seq<Byte>)
      ensures Valid() && this.doctype == doctype && original == content
      ensures rest == content && cache == [] && !injected && emitted == []
    {
      this.doctype := doctype;
      original := content;
      rest, cache, injected := content, [], false;
      emitted := [];
    }

    /** `read(size)` for a non-negative size. */
    method Read(size: nat) returns (r: seq<Byte>)
      requires Valid()
      modifies this`rest, this`cache, this`injected, this`emitted
      ensures Valid()
      ensures (r, cache, rest, injected) == Step(old(cache), old(rest), old(injected), doctype, size)
      ensures emitted == old(emitted) + r
      ensures |r| <= size
    {
      StepAccounts(original, doctype, emitted, cache, rest, injected, size);
      var read := Head(cache, size);
      if |cache| < size {
        read := read + Head(rest, size - |cache|);
        rest := Tail(rest, size - |cache|);
      }
      assert read == Taken(old(cache), old(rest), size) && rest == Left(old(cache), old(rest), size) by {
        if |old(cache)| >= size {
          assert Head(old(cache), size) + [] == Head(old(cache), size);
        }
      }
      cache := Tail(cache, size);
      if injected || Gt !in read {
        emitted := emitted + read;
        return read;
      }
      var j := FirstIndex(read, Gt);
      cache := read[..j] + [Gt] + doctype + [Gt] + read[j + 1..];
      injected := true;
      r := Head(cache, size);
      cache := Tail(cache, size);
      emitted := emitted + r;
    }
  }
}
