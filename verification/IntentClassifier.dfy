/**
 The intent classifier: hashed term-frequency embeddings and the search for
 the most similar tool. Tokens arrive already split; the token hash is any
 function.
 */
module IntentClassifier {
  import opened Vectors
  import opened Dictionaries
  import opened Correction

  type Token = string

  function Occurrences(tokens: seq<Token>, t: Token): nat {
    if tokens == [] then 0 else
      Occurrences(tokens[..|tokens| - 1], t) + if tokens[|tokens| - 1] == t then 1 else 0
  }

  function Slot(hash: Token -> nat, t: Token): nat {
    hash(t) % EMBEDDING_DIM
  }

  /** The share of a token among all tokens of the text. */
  function Frequency(tokens: seq<Token>): Token -> real {
    t => if tokens == [] then 0.0 else Occurrences(tokens, t) as real / |tokens| as real
  }

  /** The embedding after the first n keys: each one overwrites its slot with its weight. */
  function Fill(keys: seq<Token>, hash: Token -> nat, weight: Token -> real, n: nat): (e: Vector)
    requires n <= |keys|
    ensures |e| == EMBEDDING_DIM
  {
    if n == 0 then Zeros(EMBEDDING_DIM)
    else Fill(keys, hash, weight, n - 1)[Slot(hash, keys[n - 1]) := weight(keys[n - 1])]
  }

  function Embedding(tokens: seq<Token>, hash: Token -> nat): (e: Vector)
    ensures |e| == EMBEDDING_DIM
  {
    Fill(KeyOrder(tokens), hash, Frequency(tokens), |KeyOrder(tokens)|)
  }

  lemma {:induction false} OccursIfIn(tokens: seq<Token>, t: Token)
    ensures Occurrences(tokens, t) > 0 <==> t in tokens
    ensures Occurrences(tokens, t) <= |tokens|
  {
    if tokens != [] {
      var rest := tokens[..|tokens| - 1];
      assert tokens == rest + [tokens[|tokens| - 1]];
      OccursIfIn(rest, t);
    }
  }

  // ----- conservation

  ghost function CountOver(tokens: seq<Token>, keys: seq<Token>): nat {
    if keys == [] then 0 else CountOver(tokens, keys[..|keys| - 1]) + Occurrences(tokens, keys[|keys| - 1])
  }

  lemma {:induction false} CountOverMore(tokens: seq<Token>, t: Token, keys: seq<Token>)
    requires forall i, j :: 0 <= i < j < |keys| ==> keys[i] != keys[j]
    ensures CountOver(tokens + [t], keys) == CountOver(tokens, keys) + if t in keys then 1 else 0
  {
    if keys != [] {
      var rest, last := keys[..|keys| - 1], keys[|keys| - 1];
      assert keys == rest + [last] && (tokens + [t])[..|tokens|] == tokens;
      CountOverMore(tokens, t, rest);
    }
  }

  /** The counts of the distinct tokens add up to the number of tokens. */
  lemma {:induction false} CountsSumToLength(tokens: seq<Token>)
    ensures CountOver(tokens, KeyOrder(tokens)) == |tokens|
  {
    if tokens != [] {
      var rest, t := tokens[..|tokens| - 1], tokens[|tokens| - 1];
      assert tokens == rest + [t];
      CountsSumToLength(rest);
      KeysAreDistinct(rest);
      CountOverMore(rest, t, KeyOrder(rest));
      if t !in KeyOrder(rest) {
        assert KeyOrder(tokens)[..|KeyOrder(rest)|] == KeyOrder(rest);
        OccursIfIn(rest, t);
      }
    }
  }

  ghost function WeightOver(keys: seq<Token>, weight: Token -> real, n: nat): real
    requires n <= |keys|
  {
    if n == 0 then 0.0 else WeightOver(keys, weight, n - 1) + weight(keys[n - 1])
  }

  lemma {:induction false} WeightIsCount(tokens: seq<Token>, keys: seq<Token>, n: nat)
    requires tokens != [] && n <= |keys|
    ensures WeightOver(keys, Frequency(tokens), n) == CountOver(tokens, keys[..n]) as real / |tokens| as real
  {
    if n > 0 {
      WeightIsCount(tokens, keys, n - 1);
      assert keys[..n][..n - 1] == keys[..n - 1];
      AddQuotients(CountOver(tokens, keys[..n - 1]) as real, Occurrences(tokens, keys[n - 1]) as real,
                   |tokens| as real);
    }
  }

  lemma AddQuotients(x: real, y: real, n: real)
    requires n > 0.0
    ensures x / n + y / n == (x + y) / n
  {}

  /** Every key has a positive weight of at most one. */
  ghost predicate Weighs(keys: seq<Token>, weight: Token -> real) {
    forall i :: 0 <= i < |keys| ==> 0.0 < weight(keys[i]) <= 1.0
  }

  lemma FrequencyWeighs(tokens: seq<Token>)
    ensures Weighs(KeyOrder(tokens), Frequency(tokens))
  {
    KeysAreDistinct(tokens);
    forall i | 0 <= i < |KeyOrder(tokens)| ensures 0.0 < Frequency(tokens)(KeyOrder(tokens)[i]) <= 1.0 {
      var key := KeyOrder(tokens)[i];
      assert key in KeyOrder(tokens);
      OccursIfIn(tokens, key);
      FractionOfUnit(Occurrences(tokens, key) as real, |tokens| as real);
    }
  }

  lemma FractionOfUnit(x: real, n: real)
    requires 0.0 < x <= n
    ensures 0.0 < x / n <= 1.0
  {}

  /** No two of the first n keys share a slot. */
  ghost predicate SlotsDistinct(keys: seq<Token>, hash: Token -> nat, n: nat)
    requires n <= |keys|
  {
    forall i, j :: 0 <= i < j < n ==> Slot(hash, keys[i]) != Slot(hash, keys[j])
  }

  ghost predicate Occupied(keys: seq<Token>, hash: Token -> nat, n: nat, s: nat)
    requires n <= |keys|
  {
    exists i :: 0 <= i < n && Slot(hash, keys[i]) == s
  }

  lemma {:induction false} SumUpdate(v: Vector, i: nat, x: real)
    requires i < |v|
    ensures Sum(v[i := x]) == Sum(v) - v[i] + x
  {
    var rest := v[..|v| - 1];
    if i < |v| - 1 {
      assert v[i := x][..|v| - 1] == rest[i := x];
      SumUpdate(rest, i, x);
    } else {
      assert v[i := x][..|v| - 1] == rest;
    }
  }

  lemma {:induction false} SumOfZeros(n: nat)
    ensures Sum(Zeros(n)) == 0.0
  {
    if n > 0 {
      assert Zeros(n)[..n - 1] == Zeros(n - 1);
      SumOfZeros(n - 1);
    }
  }

  /** Occupied slots are positive, the others zero. */
  lemma {:induction false} FillEntries(keys: seq<Token>, hash: Token -> nat, weight: Token -> real, n: nat, s: nat)
    requires n <= |keys| && s < EMBEDDING_DIM && Weighs(keys, weight)
    ensures 0.0 <= Fill(keys, hash, weight, n)[s] <= 1.0
    ensures Fill(keys, hash, weight, n)[s] > 0.0 <==> Occupied(keys, hash, n, s)
  {
    if n > 0 {
      FillEntries(keys, hash, weight, n - 1, s);
      assert Occupied(keys, hash, n, s) <==> Occupied(keys, hash, n - 1, s) || Slot(hash, keys[n - 1]) == s;
    }
  }

  /** A slot holds the weight of the last key that hashes to it. */
  lemma {:induction false} FillKeepsLast(keys: seq<Token>, hash: Token -> nat, weight: Token -> real, n: nat, i: nat)
    requires i < n <= |keys|
    requires forall j :: i < j < n ==> Slot(hash, keys[j]) != Slot(hash, keys[i])
    ensures Fill(keys, hash, weight, n)[Slot(hash, keys[i])] == weight(keys[i])
  {
    if i < n - 1 {
      FillKeepsLast(keys, hash, weight, n - 1, i);
    }
  }

  /** Overwriting loses weight exactly when a slot is taken a second time. */
  lemma {:induction false} FillConserves(keys: seq<Token>, hash: Token -> nat, weight: Token -> real, n: nat)
    requires n <= |keys| && Weighs(keys, weight)
    ensures Sum(Fill(keys, hash, weight, n)) <= WeightOver(keys, weight, n)
    ensures Sum(Fill(keys, hash, weight, n)) == WeightOver(keys, weight, n) <==> SlotsDistinct(keys, hash, n)
  {
    if n == 0 {
      SumOfZeros(EMBEDDING_DIM);
    } else {
      var key := keys[n - 1];
      FillConserves(keys, hash, weight, n - 1);
      FillEntries(keys, hash, weight, n - 1, Slot(hash, key));
      SumUpdate(Fill(keys, hash, weight, n - 1), Slot(hash, key), weight(key));
      OneMoreSlot(keys, hash, n);
    }
  }

  lemma OneMoreSlot(keys: seq<Token>, hash: Token -> nat, n: nat)
    requires 0 < n <= |keys|
    ensures SlotsDistinct(keys, hash, n) <==>
            SlotsDistinct(keys, hash, n - 1) && !Occupied(keys, hash, n - 1, Slot(hash, keys[n - 1]))
  {}

  lemma {:induction false} SumIsPositive(v: Vector, i: nat)
    requires i < |v| && v[i] > 0.0 && forall k :: 0 <= k < |v| ==> v[k] >= 0.0
    ensures Sum(v) > 0.0
  {
    if i < |v| - 1 {
      SumIsPositive(v[..|v| - 1], i);
    } else {
      SumIsNonnegative(v[..|v| - 1]);
    }
  }

  lemma {:induction false} SumIsNonnegative(v: Vector)
    requires forall k :: 0 <= k < |v| ==> v[k] >= 0.0
    ensures Sum(v) >= 0.0
  {
    if v != [] {
      SumIsNonnegative(v[..|v| - 1]);
    }
  }

  /** No two distinct tokens of the text share a slot. */
  ghost predicate NoCollision(tokens: seq<Token>, hash: Token -> nat) {
    forall t, u :: t in tokens && u in tokens && t != u ==> hash(t) % EMBEDDING_DIM != hash(u) % EMBEDDING_DIM
  }

  lemma CollisionsAreOfKeys(tokens: seq<Token>, hash: Token -> nat)
    ensures NoCollision(tokens, hash) <==> SlotsDistinct(KeyOrder(tokens), hash, |KeyOrder(tokens)|)
  {
    KeysAreDistinct(tokens);
    var keys := KeyOrder(tokens);
    if SlotsDistinct(keys, hash, |keys|) {
      forall t, u | t in tokens && u in tokens && t != u ensures Slot(hash, t) != Slot(hash, u) {
        assert t in keys && u in keys;
        var i :| 0 <= i < |keys| && keys[i] == t;
        var j :| 0 <= j < |keys| && keys[j] == u;
      }
    }
    if NoCollision(tokens, hash) {
      forall i, j | 0 <= i < j < |keys| ensures Slot(hash, keys[i]) != Slot(hash, keys[j]) {
        assert keys[i] in keys && keys[j] in keys;
      }
    }
  }

  lemma EntriesAreFractions(tokens: seq<Token>, hash: Token -> nat)
    requires tokens != []
    ensures forall s :: 0 <= s < EMBEDDING_DIM ==> 0.0 <= Embedding(tokens, hash)[s] <= 1.0
    ensures Sum(Embedding(tokens, hash)) > 0.0
  {
    var keys, weight, e := KeyOrder(tokens), Frequency(tokens), Embedding(tokens, hash);
    FrequencyWeighs(tokens);
    forall s | 0 <= s < EMBEDDING_DIM ensures 0.0 <= e[s] <= 1.0 { FillEntries(keys, hash, weight, |keys|, s); }
    KeysAreDistinct(tokens);
    var s := Slot(hash, keys[0]);
    FillEntries(keys, hash, weight, |keys|, s);
    assert Occupied(keys, hash, |keys|, s);
    SumIsPositive(e, s);
  }

  lemma FrequenciesSumToOne(tokens: seq<Token>)
    requires tokens != []
    ensures WeightOver(KeyOrder(tokens), Frequency(tokens), |KeyOrder(tokens)|) == 1.0
  {
    var keys := KeyOrder(tokens);
    WeightIsCount(tokens, keys, |keys|);
    assert keys[..|keys|] == keys;
    CountsSumToLength(tokens);
    QuotientOfEqual(CountOver(tokens, keys) as real, |tokens| as real);
  }

  /**
   Conservation: for any hash and any nonempty text the entries lie in [0, 1] and their total
   in (0, 1]; the total is 1 exactly when no two distinct tokens share a slot.
   */
  lemma EmbeddingConserves(tokens: seq<Token>, hash: Token -> nat)
    requires tokens != []
    ensures forall s :: 0 <= s < EMBEDDING_DIM ==> 0.0 <= Embedding(tokens, hash)[s] <= 1.0
    ensures 0.0 < Sum(Embedding(tokens, hash)) <= 1.0
    ensures Sum(Embedding(tokens, hash)) == 1.0 <==> NoCollision(tokens, hash)
  {
    EntriesAreFractions(tokens, hash);
    CollisionsAreOfKeys(tokens, hash);
    FrequencyWeighs(tokens);
    FillConserves(KeyOrder(tokens), hash, Frequency(tokens), |KeyOrder(tokens)|);
    FrequenciesSumToOne(tokens);
  }

  lemma {:induction false} DistinctBelow(s: seq<nat>, bound: nat)
    requires forall i, j :: 0 <= i < j < |s| ==> s[i] != s[j]
    requires forall i :: 0 <= i < |s| ==> s[i] < bound
    ensures |s| <= bound
    decreases bound
  {
    assert |s| > 0 ==> s[0] < bound;
    if bound > 0 {
      if k: nat :| k < |s| && s[k] == bound - 1 {
        DistinctBelow(s[..k] + s[k + 1..], bound - 1);
      } else {
        DistinctBelow(s, bound - 1);
      }
    }
  }

  /** With more distinct tokens than slots some two share a slot, whatever the hash, and the total is below 1. */
  lemma ManyTokensCollide(tokens: seq<Token>, hash: Token -> nat)
    requires |KeyOrder(tokens)| > EMBEDDING_DIM
    ensures !NoCollision(tokens, hash) && Sum(Embedding(tokens, hash)) < 1.0
  {
    var keys := KeyOrder(tokens);
    var slots: seq<nat> := seq(|keys|, i requires 0 <= i < |keys| => Slot(hash, keys[i]));
    CollisionsAreOfKeys(tokens, hash);
    if SlotsDistinct(keys, hash, |keys|) {
      DistinctBelow(slots, EMBEDDING_DIM);
    }
    EmbeddingConserves(tokens, hash);
  }

  /** Token i of the key order is the last one of its slot. */
  ghost predicate LastOfSlot(tokens: seq<Token>, hash: Token -> nat, i: nat) {
    && i < |KeyOrder(tokens)|
    && forall j :: i < j < |KeyOrder(tokens)| ==>
         hash(KeyOrder(tokens)[j]) % EMBEDDING_DIM != hash(KeyOrder(tokens)[i]) % EMBEDDING_DIM
  }

  lemma {:induction false} OccurrencesAreCounted(tokens: seq<Token>, t: Token)
    ensures Occurrences(tokens, t) == multiset(tokens)[t]
  {
    if tokens != [] {
      var rest, last := tokens[..|tokens| - 1], tokens[|tokens| - 1];
      OccurrencesAreCounted(rest, t);
      assert tokens == rest + [last];
    }
  }

  /**
   The entries: at its hash modulo the dimension, the share of a token in the text, when no later
   new token has the same slot; and zero in the slots of no token.
   */
  lemma EmbeddingEntries(tokens: seq<Token>, hash: Token -> nat)
    requires tokens != []
    ensures forall i: nat :: LastOfSlot(tokens, hash, i) ==>
              var t := KeyOrder(tokens)[i];
              Embedding(tokens, hash)[hash(t) % EMBEDDING_DIM] == multiset(tokens)[t] as real / |tokens| as real
    ensures forall s :: 0 <= s < EMBEDDING_DIM && (forall t :: t in tokens ==> hash(t) % EMBEDDING_DIM != s) ==>
              Embedding(tokens, hash)[s] == 0.0
  {
    var keys, weight, e := KeyOrder(tokens), Frequency(tokens), Embedding(tokens, hash);
    KeysAreDistinct(tokens);
    FrequencyWeighs(tokens);
    forall i: nat | LastOfSlot(tokens, hash, i)
      ensures e[hash(keys[i]) % EMBEDDING_DIM] == multiset(tokens)[keys[i]] as real / |tokens| as real
    {
      FillKeepsLast(keys, hash, weight, |keys|, i);
      OccurrencesAreCounted(tokens, keys[i]);
    }
    forall s | 0 <= s < EMBEDDING_DIM && forall t :: t in tokens ==> hash(t) % EMBEDDING_DIM != s
      ensures e[s] == 0.0
    {
      FillEntries(keys, hash, weight, |keys|, s);
      forall i | 0 <= i < |keys| ensures Slot(hash, keys[i]) != s {
        assert keys[i] in keys;
      }
    }
  }

  // ----- the classifier

  ghost predicate Nonnegative(v: Vector) {
    forall i :: 0 <= i < |v| ==> v[i] >= 0.0
  }

  lemma {:induction false} DotIsNonnegative(a: Vector, b: Vector)
    requires |a| == |b| && Nonnegative(a) && Nonnegative(b)
    ensures Dot(a, b) >= 0.0
  {
    if a != [] {
      DotIsNonnegative(a[..|a| - 1], b[..|b| - 1]);
    }
  }

  lemma CosineOfNonnegative(a: Vector, b: Vector, norm: Vector -> real)
    requires Nonnegative(a) && Nonnegative(b) && IsNorm(norm, a) && IsNorm(norm, b)
    ensures 0.0 <= Cosine(a, b, norm) <= 1.0
  {
    CosineIsBounded(a, b, norm);
    if |a| == |b| && norm(a) != 0.0 && norm(b) != 0.0 {
      DotIsNonnegative(a, b);
      PositiveProduct(norm(a), norm(b), norm(a) * norm(b));
      QuotientSign(Dot(a, b), norm(a) * norm(b));
    }
  }

  lemma QuotientSign(x: real, t: real)
    requires x >= 0.0 && t > 0.0
    ensures x / t >= 0.0
  {}

  /** `tool` is the first of the names with the highest positive similarity, or "unknown" if none is positive. */
  ghost predicate IsBest(
    names: seq<Tool>, table: map<Tool, Vector>, v: Vector, norm: Vector -> real, tool: Tool, score: real)
    requires forall n :: n in names ==> n in table
  {
    if exists n :: n in names && Cosine(v, table[n], norm) > 0.0 then
      exists i :: && 0 <= i < |names|
                  && tool == (if names[i] == "" then "unknown" else names[i])
                  && score == Cosine(v, table[names[i]], norm) > 0.0
                  && (forall j :: 0 <= j < |names| ==> Cosine(v, table[names[j]], norm) <= score)
                  && (forall j :: 0 <= j < i ==> Cosine(v, table[names[j]], norm) < score)
    else tool == "unknown" && score == 0.0
  }

  class IntentClassifier {
    const hash: Token -> nat
    const norm: Vector -> real
    var names: seq<Tool>             // dictionary order
    var embeddings: map<Tool, Vector>

    ghost predicate Valid()
      reads this
    {
      && (forall n :: n in names <==> n in embeddings)
      && (forall n :: n in embeddings ==> Nonnegative(embeddings[n]) && |embeddings[n]| == EMBEDDING_DIM)
    }

    constructor (hash: Token -> nat, norm: Vector -> real)
      ensures Valid() && names == [] && this.hash == hash && this.norm == norm
    {
      this.hash, this.norm := hash, norm;
      names, embeddings := [], map[];
    }

    method TextToEmbedding(tokens: seq<Token>) returns (e: Vector)
      ensures e == Embedding(tokens, hash)
    {
      if tokens == [] {
        return Zeros(EMBEDDING_DIM);
      }
      var keys: seq<Token>, counts: map<Token, nat> := [], map[];
      for i := 0 to |tokens|
        invariant keys == KeyOrder(tokens[..i])
        invariant forall t :: t in keys <==> t in counts
        invariant forall t :: t in counts ==> counts[t] == Occurrences(tokens[..i], t)
        invariant forall t :: t !in counts ==> Occurrences(tokens[..i], t) == 0
      {
        var token := tokens[i];
        assert tokens[..i + 1][..i] == tokens[..i] && tokens[..i + 1][i] == token;
        if token in counts {
          counts := counts[token := counts[token] + 1];
        } else {
          keys := keys + [token];
          counts := counts[token := 1];
        }
      }
      assert tokens[..|tokens|] == tokens;
      var embedding := new real[EMBEDDING_DIM](_ => 0.0);
      for i := 0 to |keys|
        invariant embedding[..] == Fill(keys, hash, Frequency(tokens), i)
      {
        assert keys[i] in keys;
        embedding[Slot(hash, keys[i])] := counts[keys[i]] as real / |tokens| as real;
      }
      return embedding[..];
    }

    method AddTool(tool: Tool, description: seq<Token>)
      requires Valid()
      modifies this
      ensures Valid() && embeddings == old(embeddings)[tool := Embedding(description, hash)]
      ensures names == if tool in old(names) then old(names) else old(names) + [tool]
    {
      var e := TextToEmbedding(description);
      if description != [] {
        EmbeddingConserves(description, hash);
      }
      if tool !in embeddings {
        names := names + [tool];
      }
      embeddings := embeddings[tool := e];
    }

    method MatchTool(v: Vector) returns (tool: Tool, score: real)
      requires Valid()
      ensures IsBest(names, embeddings, v, norm, tool, score)
    {
      var best := -1;
      score := 0.0;
      for i := 0 to |names|
        invariant -1 <= best < i
        invariant if best == -1 then score == 0.0 else score == Cosine(v, embeddings[names[best]], norm) > 0.0
        invariant forall j :: 0 <= j < i ==> Cosine(v, embeddings[names[j]], norm) <= score
        invariant forall j :: 0 <= j < best ==> Cosine(v, embeddings[names[j]], norm) < score
      {
        var similarity := Cosine(v, embeddings[names[i]], norm);
        if similarity > score {
          score := similarity;
          best := i;
        }
      }
      tool := if best == -1 || names[best] == "" then "unknown" else names[best];
      if best != -1 {
        assert names[best] in names;
      }
    }

    /** Confidence always lies in [0, 1]. */
    method ClassifyIntent(tokens: seq<Token>) returns (tool: Tool, confidence: real)
      requires Valid()
      requires IsNorm(norm, Embedding(tokens, hash))
      requires forall n :: n in embeddings ==> IsNorm(norm, embeddings[n])
      ensures 0.0 <= confidence <= 1.0
      ensures exists score :: IsBest(names, embeddings, Embedding(tokens, hash), norm, tool, score)
                              && confidence == Min(score * 1.5, 1.0)
    {
      var v := TextToEmbedding(tokens);
      if tokens != [] {
        EmbeddingConserves(tokens, hash);
      }
      var score: real;
      tool, score := MatchTool(v);
      forall n | n in names ensures 0.0 <= Cosine(v, embeddings[n], norm) <= 1.0 {
        CosineOfNonnegative(v, embeddings[n], norm);
      }
      assert 0.0 <= score <= 1.0;
      confidence := Min(score * 1.5, 1.0);
    }
  }
}
