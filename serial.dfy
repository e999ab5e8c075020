/**
 * `LayeredNet::Save` and `LayeredNet::Load` (NeuralNet.cpp) over a stream
 * of tokens instead of a file: each `fwrite` of an `int` is an `I32` token
 * and each `fwrite` of a `double` an `F64` token.
 *
 * The stream holds the number of groups; then for each layer its number of
 * neurons; for each neuron its number of inputs; and for each input its
 * record: the index of the far end's layer among the groups, the far end's
 * index in that layer, and the weight, with -1, -1 for a bias.
 */
module Serial {
  import opened Util
  import opened Graph

  datatype Token = I32(i: int) | F64(w: real)

  /** One input record: `groupindex`, `neuronindex` and `weight`. */
  datatype Entry = Entry(gi: int, ni: int, w: real)

  /** The records of one neuron, of one layer, and of a whole net, in stream order. */
  type NeuronImage = seq<Entry>
  type LayerImage = seq<NeuronImage>
  type NetImage = seq<LayerImage>

  function EntryTokens(e: Entry): seq<Token>
  {
    [I32(e.gi), I32(e.ni), F64(e.w)]
  }

  function EntriesTokens(es: seq<Entry>): seq<Token>
  {
    if es == [] then [] else EntryTokens(es[0]) + EntriesTokens(es[1..])
  }

  /** A neuron's input count, then its records. */
  function NeuronTokens(es: NeuronImage): seq<Token>
  {
    [I32(|es|)] + EntriesTokens(es)
  }

  function NeuronsTokens(ns: LayerImage): seq<Token>
  {
    if ns == [] then [] else NeuronTokens(ns[0]) + NeuronsTokens(ns[1..])
  }

  /** A layer's neuron count, then its neurons. */
  function LayerTokens(li: LayerImage): seq<Token>
  {
    [I32(|li|)] + NeuronsTokens(li)
  }

  function LayersTokens(ls: NetImage): seq<Token>
  {
    if ls == [] then [] else LayerTokens(ls[0]) + LayersTokens(ls[1..])
  }

  /** The whole stream `Save` writes: the group count, then the layers. */
  function Encode(img: NetImage): seq<Token>
  {
    [I32(|img|)] + LayersTokens(img)
  }

  /* `Save` writes record after record: the tokens of a longer list extend those of a shorter one. */

  lemma {:induction false} EntriesSnoc(es: seq<Entry>, e: Entry)
    ensures EntriesTokens(es + [e]) == EntriesTokens(es) + EntryTokens(e)
  {
    if es != [] {
      assert (es + [e])[1..] == es[1..] + [e];
      EntriesSnoc(es[1..], e);
    }
  }

  lemma {:induction false} NeuronsSnoc(ns: LayerImage, x: NeuronImage)
    ensures NeuronsTokens(ns + [x]) == NeuronsTokens(ns) + NeuronTokens(x)
  {
    if ns != [] {
      assert (ns + [x])[1..] == ns[1..] + [x];
      NeuronsSnoc(ns[1..], x);
    }
  }

  lemma {:induction false} LayersSnoc(ls: NetImage, x: LayerImage)
    ensures LayersTokens(ls + [x]) == LayersTokens(ls) + LayerTokens(x)
  {
    if ls != [] {
      assert (ls + [x])[1..] == ls[1..] + [x];
      LayersSnoc(ls[1..], x);
    }
  }

  /** The stream written for the first `i + 1` layers extends that for the first `i` by the records of layer `i`. */
  lemma EncodePrefix(img: NetImage, i: nat)
    requires i < |img|
    ensures [I32(|img|)] + LayersTokens(img[..i + 1]) == [I32(|img|)] + LayersTokens(img[..i]) + LayerTokens(img[i])
  {
    assert img[..i + 1] == img[..i] + [img[i]];
    LayersSnoc(img[..i], img[i]);
  }

  /** A `for(i = 0; i < count; i ++)` loop runs no times for a count that is not positive. */
  function Count(i: int): nat
  {
    if i > 0 then i else 0
  }

  /**
   * `Load` reads `count` records. The source `fread`s whatever bytes come
   * next; here a stream that ends early, or holds a token of the wrong kind,
   * is rejected.
   */
  function ParseEntries(toks: seq<Token>, count: nat): Option<(seq<Entry>, seq<Token>)>
    decreases count
  {
    if count == 0 then Some(([], toks))
    else if |toks| < 3 || !toks[0].I32? || !toks[1].I32? || !toks[2].F64? then None
    else
      match ParseEntries(toks[3..], count - 1)
      case None => None
      case Some((es, rest)) => Some(([Entry(toks[0].i, toks[1].i, toks[2].w)] + es, rest))
  }

  function ParseNeuron(toks: seq<Token>): Option<(NeuronImage, seq<Token>)>
  {
    if |toks| == 0 || !toks[0].I32? then None else ParseEntries(toks[1..], Count(toks[0].i))
  }

  function ParseNeurons(toks: seq<Token>, count: nat): Option<(LayerImage, seq<Token>)>
    decreases count
  {
    if count == 0 then Some(([], toks))
    else
      match ParseNeuron(toks)
      case None => None
      case Some((n, rest)) =>
        match ParseNeurons(rest, count - 1)
        case None => None
        case Some((ns, rest')) => Some(([n] + ns, rest'))
  }

  function ParseLayer(toks: seq<Token>): Option<(LayerImage, seq<Token>)>
  {
    if |toks| == 0 || !toks[0].I32? then None else ParseNeurons(toks[1..], Count(toks[0].i))
  }

  function ParseLayers(toks: seq<Token>, count: nat): Option<(NetImage, seq<Token>)>
    decreases count
  {
    if count == 0 then Some(([], toks))
    else
      match ParseLayer(toks)
      case None => None
      case Some((l, rest)) =>
        match ParseLayers(rest, count - 1)
        case None => None
        case Some((ls, rest')) => Some(([l] + ls, rest'))
  }

  /** What `Load` reads from the stream; tokens after the last record are not read. */
  function Decode(toks: seq<Token>): Option<NetImage>
  {
    if |toks| == 0 || !toks[0].I32? then None
    else
      match ParseLayers(toks[1..], Count(toks[0].i))
      case None => None
      case Some((img, _)) => Some(img)
  }

  lemma {:induction false} ParseEntriesTokens(es: seq<Entry>, rest: seq<Token>)
    ensures ParseEntries(EntriesTokens(es) + rest, |es|) == Some((es, rest))
  {
    if es != [] {
      var toks := EntriesTokens(es) + rest;
      assert toks == EntryTokens(es[0]) + (EntriesTokens(es[1..]) + rest);
      assert toks[3..] == EntriesTokens(es[1..]) + rest;
      ParseEntriesTokens(es[1..], rest);
      assert [es[0]] + es[1..] == es;
    } else {
      assert EntriesTokens(es) + rest == rest;
    }
  }

  lemma ParseNeuronTokens(es: NeuronImage, rest: seq<Token>)
    ensures ParseNeuron(NeuronTokens(es) + rest) == Some((es, rest))
  {
    var toks := NeuronTokens(es) + rest;
    assert toks[1..] == EntriesTokens(es) + rest;
    ParseEntriesTokens(es, rest);
  }

  lemma {:induction false} ParseNeuronsTokens(ns: LayerImage, rest: seq<Token>)
    ensures ParseNeurons(NeuronsTokens(ns) + rest, |ns|) == Some((ns, rest))
  {
    if ns != [] {
      var toks := NeuronsTokens(ns) + rest;
      assert toks == NeuronTokens(ns[0]) + (NeuronsTokens(ns[1..]) + rest);
      ParseNeuronTokens(ns[0], NeuronsTokens(ns[1..]) + rest);
      ParseNeuronsTokens(ns[1..], rest);
      assert [ns[0]] + ns[1..] == ns;
    } else {
      assert NeuronsTokens(ns) + rest == rest;
    }
  }

  lemma ParseLayerTokens(li: LayerImage, rest: seq<Token>)
    ensures ParseLayer(LayerTokens(li) + rest) == Some((li, rest))
  {
    var toks := LayerTokens(li) + rest;
    assert toks[1..] == NeuronsTokens(li) + rest;
    ParseNeuronsTokens(li, rest);
  }

  lemma {:induction false} ParseLayersTokens(ls: NetImage, rest: seq<Token>)
    ensures ParseLayers(LayersTokens(ls) + rest, |ls|) == Some((ls, rest))
  {
    if ls != [] {
      var toks := LayersTokens(ls) + rest;
      assert toks == LayerTokens(ls[0]) + (LayersTokens(ls[1..]) + rest);
      ParseLayerTokens(ls[0], LayersTokens(ls[1..]) + rest);
      ParseLayersTokens(ls[1..], rest);
      assert [ls[0]] + ls[1..] == ls;
    } else {
      assert LayersTokens(ls) + rest == rest;
    }
  }

  /** `Load` reads back exactly the records `Save` wrote, whatever follows them. */
  lemma DecodeEncode(img: NetImage, rest: seq<Token>)
    ensures Decode(Encode(img) + rest) == Some(img)
  {
    var toks := Encode(img) + rest;
    assert toks[1..] == LayersTokens(img) + rest;
    ParseLayersTokens(img, rest);
  }
}
