/** Smaller and larger of two numbers, and distance from zero. */
module Bounds {

  function Min(x: real, y: real): real { if y < x then y else x }

  function Max(x: real, y: real): real { if y > x then y else x }

  function Abs(x: real): real { if x < 0.0 then -x else x }

  function MinNat(m: nat, n: nat): (r: nat)
    ensures r <= m && r <= n && (r == m || r == n)
  {
    if n < m then n else m
  }
}
