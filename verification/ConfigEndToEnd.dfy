/** The configuration store and the codec together: what is written is what is loaded. */
module ConfigEndToEnd {
  import opened Bytes
  import ConfigModel
  import ConfigFormat
  import ConfigRules
  import ConfigEquals
  import Codec = ConfigCodec
  import Store = ConfigStore

  /** The store accepts what the codec decodes. */
  function Accepts(certify: ConfigRules.Certifier): Store.Validator {
    p => Codec.Decode(certify, p).result == Codec.Ok
  }

  /** Whatever is loaded after any run is valid, and its encoding is the stored payload, byte for byte. */
  lemma LoadedIsCanonical(certify: ConfigRules.Certifier, flash: Store.Flash, events: seq<Store.Event>, t: Store.State)
    returns (c: ConfigModel.Configuration)
    requires Store.Reaches(Accepts(certify), Store.Initial(Accepts(certify), flash), events, t)
    requires Store.Loaded(Accepts(certify), t.flash).Some?
    ensures Codec.Decode(certify, Store.Loaded(Accepts(certify), t.flash).value) == Codec.Decoded(Codec.Ok, Some(c))
    ensures ConfigRules.IsValid(certify, c)
    ensures Store.Loaded(Accepts(certify), t.flash) == Some(ConfigFormat.Encode(c)) && Some(ConfigFormat.Encode(c)) in t.recent
  {
    hide Store.Reaches, Store.Load, Codec.Decode, ConfigRules.IsValid, ConfigFormat.Encode, Store.Holds;
    Store.LoadIsRecent(Accepts(certify), flash, events, t);
    c := DecodedConfiguration(certify, Store.Loaded(Accepts(certify), t.flash).value);
  }

  lemma DecodedConfiguration(certify: ConfigRules.Certifier, payload: seq<byte>) returns (c: ConfigModel.Configuration)
    requires Codec.Decode(certify, payload).result == Codec.Ok
    ensures Codec.Decode(certify, payload) == Codec.Decoded(Codec.Ok, Some(c))
    ensures ConfigRules.IsValid(certify, c) && ConfigFormat.Encode(c) == payload
  {
    hide Codec.Decode, ConfigRules.IsValid, ConfigFormat.Encode;
    Codec.EncodeInvertsDecode(certify, payload);
    c := Codec.Decode(certify, payload).configuration.value;
  }

  /** Writing the encoding of a valid configuration, once reported as stored, makes every later load give an equal one. */
  lemma WrittenIsLoaded(certify: ConfigRules.Certifier, flash: Store.Flash, events: seq<Store.Event>, t: Store.State,
                        c: ConfigModel.Configuration)
    requires ConfigRules.IsValid(certify, c)
    requires Store.Reaches(Accepts(certify), Store.Initial(Accepts(certify), flash), events, t)
    requires t.recent == [Some(ConfigFormat.Encode(c))]
    ensures Store.Loaded(Accepts(certify), t.flash) == Some(ConfigFormat.Encode(c))
    ensures Codec.Decode(certify, ConfigFormat.Encode(c)) == Codec.Decoded(Codec.Ok, Some(ConfigModel.Clean(c)))
    ensures ConfigEquals.Equals(c, ConfigModel.Clean(c))
  {
    hide Store.Reaches, Store.Load, Codec.Decode, ConfigRules.IsValid, ConfigFormat.Encode, Store.Holds,
      ConfigEquals.Equals, ConfigModel.Clean;
    Store.LoadIsRecent(Accepts(certify), flash, events, t);
    Codec.DecodeInvertsEncode(certify, c);
  }
}
