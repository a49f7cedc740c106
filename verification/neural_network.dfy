/** The controller of one car: a two-layer perceptron with a tanh hidden
    layer, and the genetic operators on its parameters. Random arrays are
    supplied by the caller as matrices of draws. */
module NeuralNetwork {
  import opened RealMath
  import opened Constants

  /** A numpy array of two dimensions, row by row. */
  type Matrix = seq<seq<real>>

  /** g has `rows` rows of `cols` entries each. */
  predicate IsShape<T>(g: seq<seq<T>>, rows: nat, cols: nat) {
    |g| == rows && forall i :: 0 <= i < rows ==> |g[i]| == cols
  }

  /** g and h have the same number of rows and the same row lengths. */
  predicate SameShape<T, U>(g: seq<seq<T>>, h: seq<seq<U>>) {
    |g| == |h| && forall i :: 0 <= i < |g| ==> |g[i]| == |h[i]|
  }

  /** Every entry of the matrix is zero. */
  predicate AllZero(a: Matrix) {
    forall i, j :: 0 <= i < |a| && 0 <= j < |a[i]| ==> a[i][j] == 0.0
  }

  /** The four parameter arrays of the network. */
  datatype Network = Network(
    weightsInputHidden: Matrix,
    biasHidden: Matrix,
    weightsHiddenOutput: Matrix,
    biasOutput: Matrix)

  /** INPUT x HIDDEN and HIDDEN x OUTPUT weights, 1 x HIDDEN and 1 x OUTPUT biases. */
  predicate WellShaped(n: Network) {
    && IsShape(n.weightsInputHidden, InputSize, HiddenSize)
    && IsShape(n.biasHidden, 1, HiddenSize)
    && IsShape(n.weightsHiddenOutput, HiddenSize, OutputSize)
    && IsShape(n.biasOutput, 1, OutputSize)
  }

  /** Two networks whose arrays have the same shapes. */
  predicate SameShapes(a: Network, b: Network) {
    && SameShape(a.weightsInputHidden, b.weightsInputHidden)
    && SameShape(a.biasHidden, b.biasHidden)
    && SameShape(a.weightsHiddenOutput, b.weightsHiddenOutput)
    && SameShape(a.biasOutput, b.biasOutput)
  }

  lemma WellShapedSameShapes(a: Network, b: Network)
    requires WellShaped(a) && WellShaped(b)
    ensures SameShapes(a, b)
  {
  }

  // ---------------------------------------------------------------------
  // Element-wise array operations

  /** `np.zeros((rows, cols))`. */
  function Zeros(rows: nat, cols: nat): (r: Matrix)
    ensures IsShape(r, rows, cols) && AllZero(r)
  {
    seq(rows, i => seq(cols, j => 0.0))
  }

  /** `a * k` for a scalar k. */
  function ScaleMatrix(a: Matrix, k: real): (r: Matrix)
    ensures SameShape(r, a)
    ensures forall i, j :: 0 <= i < |a| && 0 <= j < |a[i]| ==> r[i][j] == a[i][j] * k
  {
    seq(|a|, i requires 0 <= i < |a| => seq(|a[i]|, j requires 0 <= j < |a[i]| => a[i][j] * k))
  }

  /** `u > threshold`, element-wise. */
  function Above(u: Matrix, threshold: real): (mask: seq<seq<bool>>)
    ensures SameShape(mask, u)
    ensures forall i, j :: 0 <= i < |u| && 0 <= j < |u[i]| ==> (mask[i][j] <==> u[i][j] > threshold)
  {
    seq(|u|, i requires 0 <= i < |u| => seq(|u[i]|, j requires 0 <= j < |u[i]| => u[i][j] > threshold))
  }

  /** `u < threshold`, element-wise. */
  function Below(u: Matrix, threshold: real): (mask: seq<seq<bool>>)
    ensures SameShape(mask, u)
    ensures forall i, j :: 0 <= i < |u| && 0 <= j < |u[i]| ==> (mask[i][j] <==> u[i][j] < threshold)
  {
    seq(|u|, i requires 0 <= i < |u| => seq(|u[i]|, j requires 0 <= j < |u[i]| => u[i][j] < threshold))
  }

  /** `np.where(mask, a, b)`: the entry of a where the mask holds, of b elsewhere. */
  function Where(mask: seq<seq<bool>>, a: Matrix, b: Matrix): (r: Matrix)
    requires SameShape(mask, a) && SameShape(a, b)
    ensures SameShape(r, a)
    ensures forall i, j :: 0 <= i < |a| && 0 <= j < |a[i]| ==> r[i][j] == if mask[i][j] then a[i][j] else b[i][j]
  {
    seq(|a|, i requires 0 <= i < |a| =>
      seq(|a[i]|, j requires 0 <= j < |a[i]| => if mask[i][j] then a[i][j] else b[i][j]))
  }

  /** `matrix + mask * noise` with `noise = randn * 0.1`: the scaled noise is
      added where the mask holds and nothing elsewhere. */
  function AddMaskedNoise(a: Matrix, mask: seq<seq<bool>>, gauss: Matrix): (r: Matrix)
    requires SameShape(mask, a) && SameShape(a, gauss)
    ensures SameShape(r, a)
    ensures forall i, j :: 0 <= i < |a| && 0 <= j < |a[i]| ==>
      r[i][j] == a[i][j] + (if mask[i][j] then gauss[i][j] * 0.1 else 0.0)
  {
    seq(|a|, i requires 0 <= i < |a| =>
      seq(|a[i]|, j requires 0 <= j < |a[i]| => a[i][j] + (if mask[i][j] then gauss[i][j] * 0.1 else 0.0)))
  }

  /** Negated draws. */
  function Negated(g: Matrix): (r: Matrix)
    ensures SameShape(r, g)
    ensures forall i, j :: 0 <= i < |g| && 0 <= j < |g[i]| ==> r[i][j] == -g[i][j]
  {
    seq(|g|, i requires 0 <= i < |g| => seq(|g[i]|, j requires 0 <= j < |g[i]| => -g[i][j]))
  }

  /** Matrices of the same shape whose entries agree are equal. */
  lemma MatrixExt(a: Matrix, b: Matrix)
    requires SameShape(a, b)
    requires forall i, j :: 0 <= i < |a| && 0 <= j < |a[i]| ==> a[i][j] == b[i][j]
    ensures a == b
  {
    forall i | 0 <= i < |a|
      ensures a[i] == b[i]
    {
      assert |a[i]| == |b[i]|;
    }
  }

  /** Choosing between equal arrays yields that array, whatever the mask. */
  lemma WhereSame(mask: seq<seq<bool>>, a: Matrix)
    requires SameShape(mask, a)
    ensures Where(mask, a, a) == a
  {
    MatrixExt(Where(mask, a, a), a);
  }

  /** Swapping the two sources of `np.where` is the same as negating the mask. */
  lemma WhereSwap(mask: seq<seq<bool>>, a: Matrix, b: Matrix)
    requires SameShape(mask, a) && SameShape(a, b)
    ensures Where(NotMask(mask), b, a) == Where(mask, a, b)
  {
    MatrixExt(Where(NotMask(mask), b, a), Where(mask, a, b));
  }

  /** The element-wise negation of a mask. */
  function NotMask(mask: seq<seq<bool>>): (r: seq<seq<bool>>)
    ensures SameShape(r, mask)
    ensures forall i, j :: 0 <= i < |mask| && 0 <= j < |mask[i]| ==> r[i][j] == !mask[i][j]
  {
    seq(|mask|, i requires 0 <= i < |mask| => seq(|mask[i]|, j requires 0 <= j < |mask[i]| => !mask[i][j]))
  }

  /** An all-false mask adds nothing. */
  lemma AddMaskedNoiseNoMask(a: Matrix, mask: seq<seq<bool>>, gauss: Matrix)
    requires SameShape(mask, a) && SameShape(a, gauss)
    requires forall i, j :: 0 <= i < |mask| && 0 <= j < |mask[i]| ==> !mask[i][j]
    ensures AddMaskedNoise(a, mask, gauss) == a
  {
    MatrixExt(AddMaskedNoise(a, mask, gauss), a);
  }

  /** Adding the negated noise under the same mask restores the array. */
  lemma AddMaskedNoiseUndo(a: Matrix, mask: seq<seq<bool>>, gauss: Matrix)
    requires SameShape(mask, a) && SameShape(a, gauss)
    ensures AddMaskedNoise(AddMaskedNoise(a, mask, gauss), mask, Negated(gauss)) == a
  {
    var once := AddMaskedNoise(a, mask, gauss);
    MatrixExt(AddMaskedNoise(once, mask, Negated(gauss)), a);
  }

  // ---------------------------------------------------------------------
  // The network

  /** `NeuralNetwork()`: He-scaled normal draws for the weights (by sqrt(2 /
      INPUT) and sqrt(2 / HIDDEN)) and zero biases. */
  function NewNetwork(m: MathLib, gaussInputHidden: Matrix, gaussHiddenOutput: Matrix): (n: Network)
    requires IsShape(gaussInputHidden, InputSize, HiddenSize)
    requires IsShape(gaussHiddenOutput, HiddenSize, OutputSize)
    ensures WellShaped(n)
    ensures AllZero(n.biasHidden) && AllZero(n.biasOutput)
    ensures forall i, j :: 0 <= i < InputSize && 0 <= j < HiddenSize ==>
      n.weightsInputHidden[i][j] == gaussInputHidden[i][j] * m.sqrt(2.0 / InputSize as real)
    ensures forall i, j :: 0 <= i < HiddenSize && 0 <= j < OutputSize ==>
      n.weightsHiddenOutput[i][j] == gaussHiddenOutput[i][j] * m.sqrt(2.0 / HiddenSize as real)
  {
    Network(
      ScaleMatrix(gaussInputHidden, m.sqrt(2.0 / InputSize as real)),
      Zeros(1, HiddenSize),
      ScaleMatrix(gaussHiddenOutput, m.sqrt(2.0 / HiddenSize as real)),
      Zeros(1, OutputSize))
  }

  /** Column j of the product of the row vector v with w: the sum over i of
      v[i] * w[i][j]. */
  function ColumnSum(v: seq<real>, w: Matrix, j: nat): real
    requires |w| == |v| && forall i :: 0 <= i < |w| ==> j < |w[i]|
  {
    if |v| == 0 then 0.0 else v[0] * w[0][j] + ColumnSum(v[1..], w[1..], j)
  }

  /** `np.dot(v, w) + b` for a row vector v and a 1 x cols bias. */
  function Affine(v: seq<real>, w: Matrix, b: Matrix, cols: nat): (r: seq<real>)
    requires IsShape(w, |v|, cols) && IsShape(b, 1, cols)
    ensures |r| == cols
    ensures forall j :: 0 <= j < cols ==> r[j] == ColumnSum(v, w, j) + b[0][j]
  {
    seq(cols, j requires 0 <= j < cols => ColumnSum(v, w, j) + b[0][j])
  }

  /** The element-wise hyperbolic tangent. */
  function MapTanh(m: MathLib, v: seq<real>): (r: seq<real>)
    ensures |r| == |v|
    ensures forall k :: 0 <= k < |v| ==> r[k] == m.tanh(v[k])
  {
    seq(|v|, k requires 0 <= k < |v| => m.tanh(v[k]))
  }

  /** The hidden activations: tanh of the first affine layer. */
  function Hidden(m: MathLib, n: Network, input: seq<real>): (h: seq<real>)
    requires WellShaped(n) && |input| == InputSize
    ensures |h| == HiddenSize
    ensures forall k :: 0 <= k < HiddenSize ==>
      h[k] == m.tanh(ColumnSum(input, n.weightsInputHidden, k) + n.biasHidden[0][k])
  {
    MapTanh(m, Affine(input, n.weightsInputHidden, n.biasHidden, HiddenSize))
  }

  /** `feedforward`: one score per action, without an output activation. The
      source reshapes its input to 1 x INPUT, which fails on any other length. */
  function Feedforward(m: MathLib, n: Network, input: seq<real>): (scores: seq<real>)
    requires WellShaped(n) && |input| == InputSize
    ensures |scores| == OutputSize
    ensures forall j :: 0 <= j < OutputSize ==>
      scores[j] == ColumnSum(Hidden(m, n, input), n.weightsHiddenOutput, j) + n.biasOutput[0][j]
  {
    Affine(Hidden(m, n, input), n.weightsHiddenOutput, n.biasOutput, OutputSize)
  }

  /** A zero row vector contributes nothing to any column. */
  lemma {:induction false} ColumnSumZero(v: seq<real>, w: Matrix, j: nat)
    requires |w| == |v| && forall i :: 0 <= i < |w| ==> j < |w[i]|
    requires forall i :: 0 <= i < |v| ==> v[i] == 0.0
    ensures ColumnSum(v, w, j) == 0.0
  {
    if |v| > 0 {
      ColumnSumZero(v[1..], w[1..], j);
      ZeroTimes(v[0], w[0][j]);
    }
  }

  lemma ZeroTimes(a: real, b: real)
    requires a == 0.0
    ensures a * b == 0.0
  {
  }

  /** A freshly created network, whose biases are zero, maps the all-zero
      observation to all-zero scores, whatever its weights (tanh(0) = 0). */
  lemma NewNetworkZeroInput(m: MathLib, g1: Matrix, g2: Matrix)
    requires IsShape(g1, InputSize, HiddenSize) && IsShape(g2, HiddenSize, OutputSize)
    requires m.tanh(0.0) == 0.0
    ensures Feedforward(m, NewNetwork(m, g1, g2), seq(InputSize, _ => 0.0)) == seq(OutputSize, _ => 0.0)
  {
    var n := NewNetwork(m, g1, g2);
    var zero := seq(InputSize, _ => 0.0);
    var h := Hidden(m, n, zero);
    forall k | 0 <= k < HiddenSize
      ensures h[k] == 0.0
    {
      ColumnSumZero(zero, n.weightsInputHidden, k);
    }
    forall j | 0 <= j < OutputSize
      ensures Feedforward(m, n, zero)[j] == 0.0
    {
      ColumnSumZero(h, n.weightsHiddenOutput, j);
    }
  }

  /** Each entry of `child` is the entry of a where its draw exceeds 0.5 and
      the entry of b otherwise. */
  predicate PickedByDraws(child: Matrix, a: Matrix, b: Matrix, draws: Matrix) {
    && SameShape(child, a) && SameShape(a, b) && SameShape(a, draws)
    && forall i, j :: 0 <= i < |a| && 0 <= j < |a[i]| ==>
         child[i][j] == if draws[i][j] > 0.5 then a[i][j] else b[i][j]
  }

  /** `crossover`: each element of the child is the first parent's where its
      uniform draw exceeds 0.5 and the second parent's otherwise. */
  function Crossover(self: Network, other: Network, draws: Network): (child: Network)
    requires WellShaped(self) && WellShaped(other) && WellShaped(draws)
    ensures WellShaped(child)
    ensures PickedByDraws(child.weightsInputHidden, self.weightsInputHidden, other.weightsInputHidden, draws.weightsInputHidden)
    ensures PickedByDraws(child.biasHidden, self.biasHidden, other.biasHidden, draws.biasHidden)
    ensures PickedByDraws(child.weightsHiddenOutput, self.weightsHiddenOutput, other.weightsHiddenOutput, draws.weightsHiddenOutput)
    ensures PickedByDraws(child.biasOutput, self.biasOutput, other.biasOutput, draws.biasOutput)
  {
    Network(
      Where(Above(draws.weightsInputHidden, 0.5), self.weightsInputHidden, other.weightsInputHidden),
      Where(Above(draws.biasHidden, 0.5), self.biasHidden, other.biasHidden),
      Where(Above(draws.weightsHiddenOutput, 0.5), self.weightsHiddenOutput, other.weightsHiddenOutput),
      Where(Above(draws.biasOutput, 0.5), self.biasOutput, other.biasOutput))
  }

  /** Every weight of the child is the corresponding weight of one parent. */
  lemma CrossoverInheritsElements(self: Network, other: Network, draws: Network, i: nat, j: nat)
    requires WellShaped(self) && WellShaped(other) && WellShaped(draws)
    requires i < InputSize && j < HiddenSize
    ensures var c := Crossover(self, other, draws).weightsInputHidden[i][j];
      c == self.weightsInputHidden[i][j] || c == other.weightsInputHidden[i][j]
    ensures draws.weightsInputHidden[i][j] > 0.5 ==>
      Crossover(self, other, draws).weightsInputHidden[i][j] == self.weightsInputHidden[i][j]
    ensures draws.weightsInputHidden[i][j] <= 0.5 ==>
      Crossover(self, other, draws).weightsInputHidden[i][j] == other.weightsInputHidden[i][j]
  {
  }

  /** Crossing a network with itself reproduces it, whatever the draws. */
  lemma CrossoverSelf(n: Network, draws: Network)
    requires WellShaped(n) && WellShaped(draws)
    ensures Crossover(n, n, draws) == n
  {
    WhereSame(Above(draws.weightsInputHidden, 0.5), n.weightsInputHidden);
    WhereSame(Above(draws.biasHidden, 0.5), n.biasHidden);
    WhereSame(Above(draws.weightsHiddenOutput, 0.5), n.weightsHiddenOutput);
    WhereSame(Above(draws.biasOutput, 0.5), n.biasOutput);
  }

  /** Each entry of r is the entry of a plus its noise scaled by 0.1 where its
      uniform draw is below MUTATION_RATE, and the entry of a elsewhere. */
  predicate MutatedByDraws(r: Matrix, a: Matrix, uniform: Matrix, gauss: Matrix) {
    && SameShape(r, a) && SameShape(a, uniform) && SameShape(a, gauss)
    && forall i, j :: 0 <= i < |a| && 0 <= j < |a[i]| ==>
         r[i][j] == if uniform[i][j] < MutationRate then a[i][j] + gauss[i][j] * 0.1 else a[i][j]
  }

  /** `mutate`: each element gets its scaled noise added where its uniform draw
      is below MUTATION_RATE and is left unchanged elsewhere. */
  function Mutate(n: Network, uniform: Network, gauss: Network): (r: Network)
    requires WellShaped(n) && WellShaped(uniform) && WellShaped(gauss)
    ensures WellShaped(r)
    ensures MutatedByDraws(r.weightsInputHidden, n.weightsInputHidden, uniform.weightsInputHidden, gauss.weightsInputHidden)
    ensures MutatedByDraws(r.biasHidden, n.biasHidden, uniform.biasHidden, gauss.biasHidden)
    ensures MutatedByDraws(r.weightsHiddenOutput, n.weightsHiddenOutput, uniform.weightsHiddenOutput, gauss.weightsHiddenOutput)
    ensures MutatedByDraws(r.biasOutput, n.biasOutput, uniform.biasOutput, gauss.biasOutput)
  {
    Network(
      AddMaskedNoise(n.weightsInputHidden, Below(uniform.weightsInputHidden, MutationRate), gauss.weightsInputHidden),
      AddMaskedNoise(n.biasHidden, Below(uniform.biasHidden, MutationRate), gauss.biasHidden),
      AddMaskedNoise(n.weightsHiddenOutput, Below(uniform.weightsHiddenOutput, MutationRate), gauss.weightsHiddenOutput),
      AddMaskedNoise(n.biasOutput, Below(uniform.biasOutput, MutationRate), gauss.biasOutput))
  }

  /** All four arrays' draws are at least MUTATION_RATE: no element mutates. */
  predicate NoMutation(uniform: Network) {
    && NoneBelow(uniform.weightsInputHidden) && NoneBelow(uniform.biasHidden)
    && NoneBelow(uniform.weightsHiddenOutput) && NoneBelow(uniform.biasOutput)
  }

  predicate NoneBelow(u: Matrix) {
    forall i, j :: 0 <= i < |u| && 0 <= j < |u[i]| ==> u[i][j] >= MutationRate
  }

  /** Mutation with an all-false mask is the identity. */
  lemma MutateNoMask(n: Network, uniform: Network, gauss: Network)
    requires WellShaped(n) && WellShaped(uniform) && WellShaped(gauss) && NoMutation(uniform)
    ensures Mutate(n, uniform, gauss) == n
  {
    AddMaskedNoiseNoMask(n.weightsInputHidden, Below(uniform.weightsInputHidden, MutationRate), gauss.weightsInputHidden);
    AddMaskedNoiseNoMask(n.biasHidden, Below(uniform.biasHidden, MutationRate), gauss.biasHidden);
    AddMaskedNoiseNoMask(n.weightsHiddenOutput, Below(uniform.weightsHiddenOutput, MutationRate), gauss.weightsHiddenOutput);
    AddMaskedNoiseNoMask(n.biasOutput, Below(uniform.biasOutput, MutationRate), gauss.biasOutput);
  }

  /** The normal draws of all four arrays negated. */
  function NegatedNoise(gauss: Network): (r: Network)
    requires WellShaped(gauss)
    ensures WellShaped(r)
  {
    Network(Negated(gauss.weightsInputHidden), Negated(gauss.biasHidden),
            Negated(gauss.weightsHiddenOutput), Negated(gauss.biasOutput))
  }

  /** A mutation is undone by the mutation with the same mask and negated noise:
      each element changed by exactly its own noise and nothing else. */
  lemma MutateUndo(n: Network, uniform: Network, gauss: Network)
    requires WellShaped(n) && WellShaped(uniform) && WellShaped(gauss)
    ensures Mutate(Mutate(n, uniform, gauss), uniform, NegatedNoise(gauss)) == n
  {
    AddMaskedNoiseUndo(n.weightsInputHidden, Below(uniform.weightsInputHidden, MutationRate), gauss.weightsInputHidden);
    AddMaskedNoiseUndo(n.biasHidden, Below(uniform.biasHidden, MutationRate), gauss.biasHidden);
    AddMaskedNoiseUndo(n.weightsHiddenOutput, Below(uniform.weightsHiddenOutput, MutationRate), gauss.weightsHiddenOutput);
    AddMaskedNoiseUndo(n.biasOutput, Below(uniform.biasOutput, MutationRate), gauss.biasOutput);
  }

  /** `clone`: the arrays are values here, so the copy is the network itself
      and no storage can be shared. */
  function Clone(n: Network): (c: Network)
    ensures c == n
  {
    n
  }
}
