/**
  Layer descriptors of a feedforward network, as the plugin hands them to the
  network library: each layer is an activation function, a bias flag and a
  neuron count. The library's weights, structure finalisation and forward pass
  are not part of this model; only the ordered list of declared layers is.
 */
module Layers {

  /** The activation of a layer: the input layer has none (`null`), the others use tanh. */
  datatype Activation = NoActivation | Tanh

  /** One declared layer: `new BasicLayer(activation, hasBias, neuronCount)`. */
  datatype Layer = Layer(activation: Activation, hasBias: bool, neuronCount: nat)

  /** The network under construction: layers are appended in declaration order. */
  class Network {
    var layers: seq<Layer>
    var finalized: bool

    constructor ()
      ensures layers == [] && !finalized
    {
      layers := [];
      finalized := false;
    }

    /** Appends a layer after the ones already declared. */
    method AddLayer(layer: Layer)
      modifies this
      ensures layers == old(layers) + [layer]
      ensures finalized == old(finalized)
    {
      layers := layers + [layer];
    }

    /** Sets the finalised flag; the declared layers stay as they are. */
    method FinalizeStructure()
      modifies this
      ensures finalized
      ensures layers == old(layers)
    {
      finalized := true;
    }
  }
}
