/** The order of strings by code unit, and why the text of a uuid sorts as its number. */
module Order {
  import opened Text
  import opened Cursors

  predicate Less(a: string, b: string) {
    if b == "" then false
    else if a == "" then true
    else a[0] < b[0] || (a[0] == b[0] && Less(a[1..], b[1..]))
  }

  lemma {:induction false} LessIsTotal(a: string, b: string)
    ensures !(Less(a, b) && Less(b, a)) && (Less(a, b) || Less(b, a) || a == b) && !Less(a, a)
    decreases a
  {
    if a != "" && b != "" {
      LessIsTotal(a[1..], b[1..]);
      LessIsTotal(a[1..], a[1..]);
      assert a[0] == b[0] && a[1..] == b[1..] ==> a == [a[0]] + a[1..] == [b[0]] + b[1..] == b;
    } else if a != "" {
      LessIsTotal(a[1..], a[1..]);
    }
  }

  lemma {:induction false} LessIsTransitive(a: string, b: string, c: string)
    requires Less(a, b) && Less(b, c)
    ensures Less(a, c)
    decreases a
  {
    if a != "" && a[0] == b[0] == c[0] {
      LessIsTransitive(a[1..], b[1..], c[1..]);
    }
  }

  lemma {:induction false} LessAppends(a: string, b: string, x: string, y: string)
    requires |a| == |b|
    ensures Less(a + x, b + y) <==> Less(a, b) || (a == b && Less(x, y))
    decreases a
  {
    if a == "" {
      assert a + x == x && b + y == y;
    } else {
      LessAppends(a[1..], b[1..], x, y);
      assert (a + x)[1..] == a[1..] + x && (b + y)[1..] == b[1..] + y;
      assert a == [a[0]] + a[1..] && b == [b[0]] + b[1..];
    }
  }

  lemma {:induction false} FixedOrder(n: nat, m: nat, base: nat, w: nat)
    requires Base(base) && n < Pow(base, w) && m < Pow(base, w)
    ensures Less(Fixed(n, base, w), Fixed(m, base, w)) <==> n < m
    decreases w
  {
    if w > 0 {
      var p := Pow(base, w - 1);
      assert n / base < p && m / base < p by {
        if base == 10 { assert n < 10 * p && m < 10 * p; } else { assert n < 16 * p && m < 16 * p; }
      }
      FixedOrder(n / base, m / base, base, w - 1);
      FixedOrder(m / base, n / base, base, w - 1);
      var (a, b) := (Fixed(n / base, base, w - 1), Fixed(m / base, base, w - 1));
      var (x, y) := (DigitChar(n % base), DigitChar(m % base));
      LessAppends(a, b, [x], [y]);
      LessIsTotal(a, b);
      assert Less([x], [y]) <==> x < y;
      if base == 10 { assert n < m <==> n / 10 < m / 10 || (n / 10 == m / 10 && n % 10 < m % 10); }
      else { assert n < m <==> n / 16 < m / 16 || (n / 16 == m / 16 && n % 16 < m % 16); }
    }
  }

  lemma DashKeepsOrder(p: string, q: string, x: string, y: string, r: string, s: string)
    requires |p| == |q| && (Less(x, y) <==> Less(r, s))
    ensures Less(p + ("-" + x), q + ("-" + y)) <==> Less(p + r, q + s)
  {
    LessAppends(p, q, "-" + x, "-" + y);
    LessAppends(p, q, r, s);
    LessAppends("-", "-", x, y);
    LessIsTotal("-", "-");
    hide Less;
  }

  lemma DashedOrder(g: string, h: string)
    requires |g| == 32 && |h| == 32
    ensures Less(Dashed(g), Dashed(h)) <==> Less(g, h)
  {
    hide Less;
    var (g4, h4) := (g[16..20] + ("-" + g[20..]), h[16..20] + ("-" + h[20..]));
    var (g3, h3) := (g[12..16] + ("-" + g4), h[12..16] + ("-" + h4));
    var (g2, h2) := (g[8..12] + ("-" + g3), h[8..12] + ("-" + h3));
    DashKeepsOrder(g[16..20], h[16..20], g[20..], h[20..], g[20..], h[20..]);
    assert g[16..20] + g[20..] == g[16..] && h[16..20] + h[20..] == h[16..];
    DashKeepsOrder(g[12..16], h[12..16], g4, h4, g[16..], h[16..]);
    assert g[12..16] + g[16..] == g[12..] && h[12..16] + h[16..] == h[12..];
    DashKeepsOrder(g[8..12], h[8..12], g3, h3, g[12..], h[12..]);
    assert g[8..12] + g[12..] == g[8..] && h[8..12] + h[12..] == h[8..];
    DashKeepsOrder(g[..8], h[..8], g2, h2, g[8..], h[8..]);
    assert g[..8] + g[8..] == g && h[..8] + h[8..] == h;
    DashedFromRight(g);
    DashedFromRight(h);
  }

  lemma DashedFromRight(g: string)
    requires |g| == 32
    ensures Dashed(g) == g[..8] + ("-" + (g[8..12] + ("-" + (g[12..16] + ("-" + (g[16..20] + ("-" + g[20..])))))))
  {
  }

  /** The database orders uuids as numbers, the ranking by their text: the orders agree. */
  lemma UuidTextOrder(a: Uuid, b: Uuid)
    requires IsUuid(a) && IsUuid(b)
    ensures Less(UuidString(a), UuidString(b)) <==> a < b
  {
    FixedOrder(a, b, 16, 32);
    DashedOrder(Fixed(a, 16, 32), Fixed(b, 16, 32));
  }
}
