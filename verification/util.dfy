/** `yarl.util`: the coordinate key (`cantor_pairing`), the 2D vector and
    its dictionary form (`dump_vec2`/`load_vec2`), and `make_slug`. */
module Util {
  import opened Wrappers

  // ---------------------------------------------------------------------
  // Coordinate key
  // ---------------------------------------------------------------------

  /** Folds a signed coordinate onto the naturals: `2z` for `z >= 0` and
      `-2z + 1` for `z < 0`.  Unlike the usual zig-zag code (`-2z - 1`)
      negative inputs start at 3, so 1 is never produced. */
  function ZigZag(z: int): (n: nat)
    ensures n % 2 == 0 <==> z >= 0
    ensures z < 0 ==> n >= 3
    ensures n != 1
  {
    if z < 0 then z * -2 + 1 else z * 2
  }

  /** Recovers the coordinate from its fold; the left inverse of `ZigZag`. */
  function UnZigZag(n: nat): int
  {
    if n % 2 == 0 then n / 2 else -((n - 1) / 2)
  }

  lemma UnZigZagInverts(z: int)
    ensures UnZigZag(ZigZag(z)) == z
  {
  }

  lemma ZigZagInjective(a: int, b: int)
    ensures ZigZag(a) == ZigZag(b) ==> a == b
  {
    UnZigZagInverts(a);
    UnZigZagInverts(b);
  }

  /** The triangular number 0 + 1 + ... + s. */
  function Tri(s: nat): nat
  {
    if s == 0 then 0 else Tri(s - 1) + s
  }

  lemma {:induction false} TriClosedForm(s: nat)
    ensures 2 * Tri(s) == s * (s + 1)
  {
    if s > 0 {
      TriClosedForm(s - 1);
      assert (s - 1) * s + 2 * s == s * (s + 1);
    }
  }

  lemma {:induction false} TriMonotone(i: nat, j: nat)
    requires i <= j
    ensures Tri(i) <= Tri(j)
    decreases j - i
  {
    if i < j {
      TriMonotone(i + 1, j);
    }
  }

  /** The Cantor pairing polynomial on folded coordinates, in exact integer
      arithmetic: the product of two consecutive numbers is even, so the
      halving loses nothing. */
  function CantorKey(n1: nat, n2: nat): (k: nat)
    ensures k == Tri(n1 + n2) + n2
  {
    TriClosedForm(n1 + n2);
    (n1 + n2) * (n1 + n2 + 1) / 2 + n2
  }

  /** `cantor_pairing(z1, z2)`: the source multiplies by the float 0.5; here
      the multiplication is exact, and its result is always the integral
      key `CantorKey(ZigZag(z1), ZigZag(z2))`. */
  function CantorPairing(z1: int, z2: int): (r: real)
    ensures r == CantorKey(ZigZag(z1), ZigZag(z2)) as real
    ensures r.Floor as real == r
  {
    var n1 := ZigZag(z1);
    var n2 := ZigZag(z2);
    var p := (n1 + n2) * (n1 + n2 + 1);
    assert p == 2 * Tri(n1 + n2) by { TriClosedForm(n1 + n2); }
    p as real * 0.5 + n2 as real
  }

  /** Distinct pairs of naturals have distinct Cantor keys: the key lies in
      `[Tri(s), Tri(s + 1))` for `s = n1 + n2`, which fixes `s` and then `n2`. */
  lemma CantorKeyInjective(a1: nat, a2: nat, b1: nat, b2: nat)
    requires CantorKey(a1, a2) == CantorKey(b1, b2)
    ensures a1 == b1 && a2 == b2
  {
    var sa, sb := a1 + a2, b1 + b2;
    if sa < sb {
      TriMonotone(sa + 1, sb);
      assert false;
    } else if sb < sa {
      TriMonotone(sb + 1, sa);
      assert false;
    }
  }

  /** `cantor_pairing` never maps two distinct coordinates to one key. */
  lemma CantorPairingInjective(z1: int, z2: int, w1: int, w2: int)
    requires (z1, z2) != (w1, w2)
    ensures CantorPairing(z1, z2) != CantorPairing(w1, w2)
  {
    if CantorPairing(z1, z2) == CantorPairing(w1, w2) {
      CantorKeyInjective(ZigZag(z1), ZigZag(z2), ZigZag(w1), ZigZag(w2));
      ZigZagInjective(z1, w1);
      ZigZagInjective(z2, w2);
    }
  }

  // ---------------------------------------------------------------------
  // Vectors
  // ---------------------------------------------------------------------

  /** An `sf.Vector2` with integer components. */
  datatype Vec2 = Vec2(x: int, y: int)

  /** Component-wise `+` of two vectors. */
  function Add(a: Vec2, b: Vec2): (r: Vec2)
    ensures r.x - a.x == b.x && r.y - a.y == b.y
  {
    Vec2(a.x + b.x, a.y + b.y)
  }

  /** `dump_vec2`: the dictionary `{'x': v.x, 'y': v.y}`. */
  function DumpVec2(v: Vec2): (d: map<string, int>)
    ensures d.Keys == {"x", "y"}
  {
    map["x" := v.x, "y" := v.y]
  }

  /** `load_vec2`: reads keys `x` and `y`; a missing key raises `KeyError`,
      other keys are ignored. */
  function LoadVec2(d: map<string, int>): (r: Result<Vec2>)
    ensures r.Ok? <==> "x" in d && "y" in d
    ensures r.Err? ==> r.error == KeyError
  {
    if "x" !in d || "y" !in d then Err(KeyError) else Ok(Vec2(d["x"], d["y"]))
  }

  lemma Vec2RoundTrip(v: Vec2)
    ensures LoadVec2(DumpVec2(v)) == Ok(v)
  {
  }

  // ---------------------------------------------------------------------
  // Slugs (ASCII)
  // ---------------------------------------------------------------------

  predicate IsSlugAlnum(c: char)
  {
    'a' <= c <= 'z' || '0' <= c <= '9'
  }

  predicate IsSlugChar(c: char)
  {
    IsSlugAlnum(c) || c == '-'
  }

  /** `str.lower()` on one character, ASCII letters only. */
  function LowerChar(c: char): char
  {
    if 'A' <= c <= 'Z' then (c as int + 32) as char else c
  }

  function Lower(s: string): (r: string)
    ensures |r| == |s|
    ensures forall i :: 0 <= i < |s| ==> r[i] == LowerChar(s[i])
  {
    seq(|s|, i requires 0 <= i < |s| => LowerChar(s[i]))
  }

  /** The character class a `re.sub` in `make_slug` replaces runs of:
      `[^a-z0-9]+` first, then `[-]+`. */
  datatype RunClass = NotAlnum | Dash

  predicate InRun(cls: RunClass, c: char)
  {
    match cls
    case NotAlnum => !IsSlugAlnum(c)
    case Dash => c == '-'
  }

  /** The suffix of `s` left after its leading run of `cls` characters. */
  function DropRun(s: string, cls: RunClass): (r: string)
    ensures |r| <= |s| && r == s[|s| - |r|..]
    ensures |r| > 0 ==> !InRun(cls, r[0])
    ensures forall i :: 0 <= i < |s| - |r| ==> InRun(cls, s[i])
  {
    if |s| > 0 && InRun(cls, s[0]) then DropRun(s[1..], cls) else s
  }

  /** `re.sub(<cls>+, '-', s)`: every maximal run of `cls` characters becomes
      one `-`; other characters are copied. */
  function ReplaceRuns(s: string, cls: RunClass): (r: string)
    ensures |r| > 0 <==> |s| > 0
    ensures |s| > 0 ==> r[0] == (if InRun(cls, s[0]) then '-' else s[0])
    ensures forall i :: 0 <= i < |r| ==> r[i] == '-' || !InRun(cls, r[i])
    ensures forall i, j :: 0 <= i < j < |r| && j == i + 1 && r[i] == '-' ==> !InRun(cls, r[j])
    decreases |s|
  {
    if |s| == 0 then ""
    else if InRun(cls, s[0]) then
      var t := DropRun(s[1..], cls);
      "-" + ReplaceRuns(t, cls)
    else
      [s[0]] + ReplaceRuns(s[1..], cls)
  }

  ghost predicate NoDoubleDash(s: string)
  {
    forall i, j :: 0 <= i < j < |s| && j == i + 1 ==> !(s[i] == '-' && s[j] == '-')
  }

  /** `make_slug`: lower-case, then replace runs of characters outside
      `a-z0-9` by `-`, then collapse runs of `-`. */
  function MakeSlug(raw: string): (slug: string)
    ensures forall i :: 0 <= i < |slug| ==> IsSlugChar(slug[i])
    ensures NoDoubleDash(slug)
  {
    var step1 := ReplaceRuns(Lower(raw), NotAlnum);
    ReplaceRunsIdentity(step1, Dash);
    ReplaceRuns(step1, Dash)
  }

  /** `ReplaceRuns` leaves a string alone when its only `cls` characters are
      isolated dashes. */
  lemma {:induction false} ReplaceRunsIdentity(s: string, cls: RunClass)
    requires forall i :: 0 <= i < |s| && InRun(cls, s[i]) ==> s[i] == '-'
    requires cls == NotAlnum ==> forall i :: 0 <= i < |s| ==> IsSlugChar(s[i])
    requires NoDoubleDash(s)
    ensures ReplaceRuns(s, cls) == s
    decreases |s|
  {
    if |s| > 0 {
      ReplaceRunsIdentity(s[1..], cls);
      if InRun(cls, s[0]) {
        if |s| > 1 {
          assert s[1] != '-';
          assert !InRun(cls, s[1]);
        }
        assert DropRun(s[1..], cls) == s[1..];
      }
      assert [s[0]] + s[1..] == s;
    }
  }

  /** Only the slug's first step does any work. */
  lemma MakeSlugIsOneReplacement(raw: string)
    ensures MakeSlug(raw) == ReplaceRuns(Lower(raw), NotAlnum)
  {
    ReplaceRunsIdentity(ReplaceRuns(Lower(raw), NotAlnum), Dash);
  }

  /** `make_slug` is idempotent. */
  lemma MakeSlugIdempotent(raw: string)
    ensures MakeSlug(MakeSlug(raw)) == MakeSlug(raw)
  {
    var slug := MakeSlug(raw);
    assert Lower(slug) == slug;
    ReplaceRunsIdentity(slug, NotAlnum);
    MakeSlugIsOneReplacement(slug);
  }

  /** The characters `a-z0-9` of `s`, in order. */
  function Alnums(s: string): (r: string)
    ensures forall i :: 0 <= i < |r| ==> IsSlugAlnum(r[i])
  {
    if |s| == 0 then ""
    else if IsSlugAlnum(s[0]) then [s[0]] + Alnums(s[1..])
    else Alnums(s[1..])
  }

  lemma {:induction false} AlnumsOfRun(s: string)
    requires forall i :: 0 <= i < |s| ==> !IsSlugAlnum(s[i])
    ensures Alnums(s) == ""
  {
    if |s| > 0 {
      AlnumsOfRun(s[1..]);
    }
  }

  lemma {:induction false} AlnumsSplit(a: string, b: string)
    ensures Alnums(a + b) == Alnums(a) + Alnums(b)
  {
    if |a| > 0 {
      AlnumsSplit(a[1..], b);
      assert (a + b)[1..] == a[1..] + b;
    } else {
      assert a + b == b;
    }
  }

  lemma {:induction false} ReplaceRunsKeepsAlnums(s: string)
    ensures Alnums(ReplaceRuns(s, NotAlnum)) == Alnums(s)
    decreases |s|
  {
    if |s| > 0 {
      if InRun(NotAlnum, s[0]) {
        var t := DropRun(s[1..], NotAlnum);
        ReplaceRunsKeepsAlnums(t);
        var k := |s[1..]| - |t|;
        assert s == s[..k + 1] + t;
        AlnumsOfRun(s[..k + 1]);
        AlnumsSplit(s[..k + 1], t);
        AlnumsSplit("-", ReplaceRuns(t, NotAlnum));
      } else {
        ReplaceRunsKeepsAlnums(s[1..]);
      }
    }
  }

  /** `make_slug` keeps the lower-cased letters and digits of its input, in
      order, and drops nothing else of them. */
  lemma MakeSlugKeepsAlnums(raw: string)
    ensures Alnums(MakeSlug(raw)) == Alnums(Lower(raw))
  {
    MakeSlugIsOneReplacement(raw);
    ReplaceRunsKeepsAlnums(Lower(raw));
  }

  lemma {:induction false} ReplaceRunsLast(s: string, cls: RunClass)
    requires |s| > 0
    ensures var r := ReplaceRuns(s, cls);
            r[|r| - 1] == (if InRun(cls, s[|s| - 1]) then '-' else s[|s| - 1])
    decreases |s|
  {
    if InRun(cls, s[0]) {
      var t := DropRun(s[1..], cls);
      if |t| > 0 {
        ReplaceRunsLast(t, cls);
      } else {
        assert InRun(cls, s[|s| - 1]);
      }
    } else if |s| > 1 {
      ReplaceRunsLast(s[1..], cls);
    }
  }

  /** `make_slug` does not trim: it yields a leading (trailing) `-` exactly
      when the input starts (ends) with a character outside `a-z0-9` after
      lower-casing, and it is empty only for an empty input. */
  lemma MakeSlugKeepsEdges(raw: string)
    ensures |MakeSlug(raw)| > 0 <==> |raw| > 0
    ensures |raw| > 0 ==> (MakeSlug(raw)[0] == '-' <==> !IsSlugAlnum(LowerChar(raw[0])))
    ensures |raw| > 0 ==>
      (MakeSlug(raw)[|MakeSlug(raw)| - 1] == '-' <==> !IsSlugAlnum(LowerChar(raw[|raw| - 1])))
  {
    MakeSlugIsOneReplacement(raw);
    if |raw| > 0 {
      ReplaceRunsLast(Lower(raw), NotAlnum);
    }
  }
}
