/** `parseInitRegState` (leros-sim.cpp): the `--rs` option text
    `"reg:value,reg:value,..."` read into a register -> value map. */
module RegState {
  import opened Words
  import opened Decimal
  import opened Text

  /** `std::getline(f, tmp, ',')` repeated until it fails, from the piece
      `tmp` read so far and the unread text `rest`: a comma ends the piece,
      any other character joins it, and at the end of the text a read that
      took no character fails, so a trailing comma yields no empty piece. */
  function Getline(tmp: string, rest: string): (pieces: seq<string>)
    decreases |rest|
  {
    if rest == [] then (if tmp == [] then [] else [tmp])
    else if rest[0] == ',' then [tmp] + Getline([], rest[1..])
    else Getline(tmp + [rest[0]], rest[1..])
  }

  /** The pieces `pairs` the first loop of `parseInitRegState` collects. */
  function Pieces(s: string): (pieces: seq<string>)
  {
    Getline([], s)
  }

  /** A `std::stoul` argument that is read whole without `out_of_range`. */
  predicate IsULong(s: string)
  {
    IsDigits(s) && NatValue(s) < 0x1_0000_0000_0000_0000
  }

  /** A `std::stoi` argument that is read whole without `out_of_range`. */
  predicate IsInt(s: string)
  {
    IsIntText(s) && -0x8000_0000 <= IntValue(s) < 0x8000_0000
  }

  /** The pieces this model reads: `reg:value` with `reg` digits and
      `value` an optionally negative numeral, or a piece of digits only. */
  predicate WellFormedPiece(p: string)
  {
    var pos := IndexOf(p, ':');
    IsULong(p[..pos]) && IsInt(if pos == |p| then p else p[pos + 1..])
  }

  /** Every piece is well formed. */
  predicate WellFormed(s: string)
  {
    forall k :: 0 <= k < |Pieces(s)| ==> WellFormedPiece(Pieces(s)[k])
  }

  /** One pass of the second loop: `reg` is `stoul` of the text before the
      first ':' cut to the 32-bit `unsigned`; `erase(0, pos + 1)` removes that
      text and the ':' (with no ':', `npos + 1` wraps to 0 and nothing is
      erased) and `value` is `stoi` of what is left. */
  function ParsePiece(p: string): (e: (nat, int))
    requires WellFormedPiece(p)
  {
    var pos := IndexOf(p, ':');
    var reg := NatValue(p[..pos]) % Two32;
    var erased := if pos == |p| then 0 else pos + 1;
    (reg, IntValue(p[erased..]))
  }

  /** `state[reg] = value` for the pieces in order: a later piece for the
      same register overwrites an earlier one. */
  function ParsePieces(pieces: seq<string>): (state: map<nat, int>)
    requires forall k :: 0 <= k < |pieces| ==> WellFormedPiece(pieces[k])
    ensures forall r :: r in state ==> r < Two32
    decreases |pieces|
  {
    if pieces == [] then map[]
    else
      var e := ParsePiece(pieces[|pieces| - 1]);
      ParsePieces(pieces[..|pieces| - 1])[e.0 := e.1]
  }

  /** `parseInitRegState`: the empty text gives the empty map. */
  function ParseInitRegState(s: string): (state: map<nat, int>)
    requires WellFormed(s)
  {
    if s == [] then map[] else ParsePieces(Pieces(s))
  }

  /** A piece without ':' names the register and the value at once. */
  lemma PieceWithoutColon(p: string)
    requires Free(p, ':') && WellFormedPiece(p)
    ensures ParsePiece(p) == (NatValue(p) % Two32, NatValue(p))
  {
    IndexOfFree(p, ':');
    assert p[..|p|] == p && p[0..] == p;
  }

  /** A comma-free stretch of text joins the piece being read. */
  lemma {:induction false} GetlineFree(tmp: string, a: string, rest: string)
    requires Free(a, ',')
    ensures Getline(tmp, a + rest) == Getline(tmp + a, rest)
    decreases |a|
  {
    if a != [] {
      assert (a + rest)[0] == a[0] && (a + rest)[1..] == a[1..] + rest;
      assert tmp + [a[0]] + a[1..] == tmp + a;
      GetlineFree(tmp + [a[0]], a[1..], rest);
    } else {
      assert a + rest == rest && tmp + a == tmp;
    }
  }

  /** The pieces after one that ends at a comma. */
  lemma PiecesCons(a: string, b: string)
    requires Free(a, ',')
    ensures Pieces(a + "," + b) == [a] + Pieces(b)
  {
    assert a + "," + b == a + ("," + b);
    GetlineFree([], a, "," + b);
    assert [] + a == a && ("," + b)[1..] == b;
  }

  /** A comma-free text is one piece, or none when it is empty. */
  lemma PiecesFree(a: string)
    requires Free(a, ',')
    ensures Pieces(a) == if a == [] then [] else [a]
  {
    GetlineFree([], a, []);
    assert a + [] == a && [] + a == a;
  }

  /** The getline loop: `tmp` collects characters up to each comma, and a
      final `tmp` is kept only when it is not empty. */
  method GetlinePieces(s: string) returns (pairs: seq<string>)
    ensures pairs == Pieces(s)
  {
    pairs := [];
    var tmp := "";
    var i := 0;
    while i < |s|
      invariant 0 <= i <= |s|
      invariant Pieces(s) == pairs + Getline(tmp, s[i..])
    {
      assert s[i..][0] == s[i] && s[i..][1..] == s[i + 1..];
      if s[i] == ',' {
        pairs := pairs + [tmp];
        tmp := "";
      } else {
        tmp := tmp + [s[i]];
      }
      i := i + 1;
    }
    if tmp != "" {
      pairs := pairs + [tmp];
    }
  }

  /** `parseInitRegState`: return the empty map for the empty text, split
      the text into `pairs`, then set `state[reg] = value` for each pair. */
  method ParseRegState(s: string) returns (state: map<nat, int>)
    requires WellFormed(s)
    ensures state == ParseInitRegState(s)
  {
    if s == "" {
      return map[];
    }
    var pairs := GetlinePieces(s);
    state := map[];
    var j := 0;
    while j < |pairs|
      invariant 0 <= j <= |pairs|
      invariant state == ParsePieces(pairs[..j])
    {
      var p := pairs[j];
      var pos := IndexOf(p, ':');
      var reg := NatValue(p[..pos]) % Two32;
      var erased := if pos == |p| then 0 else pos + 1;
      p := p[erased..];
      var value := IntValue(p);
      assert pairs[..j + 1][..j] == pairs[..j];
      state := state[reg := value];
      j := j + 1;
    }
    assert pairs[..j] == pairs;
  }
}
