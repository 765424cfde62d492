/**
 * `filter_dictionary` and the merge of command-line values over the values
 * read from the configuration file. Python's `None` is `Option.None`.
 */
module Settings {
  import opened Wrappers

  /** The entries of a dictionary whose value is not None, values unchanged. */
  function NonNone<V>(dictionary: map<string, Option<V>>): map<string, Option<V>> {
    map k | k in dictionary && dictionary[k].Some? :: dictionary[k]
  }

  /** Dropping the None entries a second time drops nothing more. */
  lemma NonNoneIdempotent<V>(dictionary: map<string, Option<V>>)
    ensures NonNone(NonNone(dictionary)) == NonNone(dictionary)
    ensures forall k :: k in NonNone(dictionary) ==> NonNone(dictionary)[k].Some?
  {
  }

  /** The loop of `filter_dictionary`, which `update`s a fresh dictionary entry by entry. */
  method FilterDictionary<V>(dictionary: map<string, Option<V>>) returns (result: map<string, Option<V>>)
    ensures forall k :: k in result <==> k in dictionary && dictionary[k].Some?
    ensures forall k :: k in result ==> result[k] == dictionary[k]
    ensures result == NonNone(dictionary)
  {
    result := map[];
    var pending := dictionary.Keys;
    while pending != {}
      invariant pending <= dictionary.Keys
      invariant forall k :: k in result <==> k in dictionary && k !in pending && dictionary[k].Some?
      invariant forall k :: k in result ==> result[k] == dictionary[k]
      decreases pending
    {
      var key :| key in pending;
      var val := dictionary[key];
      if val != None {
        result := result[key := val];
      }
      pending := pending - {key};
    }
  }

  /**
   * `config_kwargs.update(filter_dictionary(kwargs))`: every option given on
   * the command line wins; every other option keeps the configuration file's
   * value, or stays absent.
   */
  method MergeCommandLine<V>(fileValues: map<string, Option<V>>, flags: map<string, Option<V>>)
    returns (merged: map<string, Option<V>>)
    ensures forall k :: k in flags && flags[k].Some? ==> k in merged && merged[k] == flags[k]
    ensures forall k :: !(k in flags && flags[k].Some?) ==> (k in merged <==> k in fileValues)
    ensures forall k :: k in fileValues && !(k in flags && flags[k].Some?) ==> merged[k] == fileValues[k]
    ensures merged == fileValues + NonNone(flags)
  {
    merged := fileValues;
    var given := FilterDictionary(flags);
    merged := merged + given;
  }
}
