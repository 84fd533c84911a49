/**
  The collaborators the core calls but does not define: the sentence embedding
  model, the cosine ratio `dot / (norm1 * norm2)` computed in floating point, and
  `numpy.exp`. They are carried as function values; `ValidEnv` lists the only
  facts the core relies on.
 */
module Foreign {

  type Embedding = seq<real>

  datatype Env = Env(
    embed: string -> Embedding,
    cosine: (Embedding, Embedding) -> real,
    exp: real -> real)

  /** The facts about `exp` the decay formula relies on. */
  ghost predicate ValidEnv(env: Env)
  {
    && env.exp(0.0) == 1.0
    && (forall x, y :: x <= y ==> env.exp(x) <= env.exp(y))
    && (forall x :: env.exp(x) > 0.0)
  }

  /** The squared Euclidean norm; the norm is zero exactly when this is. */
  function NormSq(v: Embedding): (n: real)
    ensures n >= 0.0
    decreases |v|
  {
    if |v| == 0 then 0.0 else v[0] * v[0] + NormSq(v[1..])
  }

  /** The retention fraction's complement `1 - exp(-0.1 * days)` (memory_retriever's decay, rate 0.1). */
  function Decay(env: Env, days: int): real
  {
    1.0 - env.exp(-0.1 * days as real)
  }

  /** `(now - timestamp).days`: whole elapsed days, rounded toward negative infinity. */
  function ElapsedDays(now: int, timestamp: int): int
  {
    (now - timestamp) / 86400
  }

  lemma DecayAtZero(env: Env)
    requires ValidEnv(env)
    ensures Decay(env, 0) == 0.0
  {
    assert -0.1 * (0 as real) == 0.0;
  }

  /** More elapsed days never decay less. */
  lemma DecayMonotone(env: Env, d1: int, d2: int)
    requires ValidEnv(env)
    requires d1 <= d2
    ensures Decay(env, d1) <= Decay(env, d2)
  {
    assert -0.1 * d2 as real <= -0.1 * d1 as real;
  }

  /** Decay is always strictly below 1, so effective strength never vanishes through decay alone. */
  lemma DecayBelowOne(env: Env, d: int)
    requires ValidEnv(env)
    ensures Decay(env, d) < 1.0
  {
    assert env.exp(-0.1 * d as real) > 0.0;
  }

  /** Records under a day old (and not dated in the future) have zero elapsed days. */
  lemma ElapsedDaysUnderADay(now: int, timestamp: int)
    requires 0 <= now - timestamp < 86400
    ensures ElapsedDays(now, timestamp) == 0
  {
  }

  lemma ElapsedDaysMonotone(now1: int, now2: int, timestamp: int)
    requires now1 <= now2
    ensures ElapsedDays(now1, timestamp) <= ElapsedDays(now2, timestamp)
  {
  }
}
