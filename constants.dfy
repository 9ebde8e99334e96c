/** The icon URL builder shared by the market and asset pages. */
module Constants {
  import opened Text

  const IconPrefix: string := "https://assets.coincap.io/assets/icons/"
  const IconSuffix: string := "@2x.png"

  /** `getCryptoIcon(symbol)`: the CoinCap icon URL of a ticker symbol. */
  function CryptoIcon(symbol: string): (url: string)
    ensures |url| == |IconPrefix| + |symbol| + |IconSuffix|
    ensures url[..|IconPrefix|] == IconPrefix
    ensures url[|url| - |IconSuffix|..] == IconSuffix
    ensures url[|IconPrefix|..|url| - |IconSuffix|] == Lower(symbol)
  {
    IconPrefix + Lower(symbol) + IconSuffix
  }

  /** Two symbols give the same URL exactly when they agree up to letter case. */
  lemma CryptoIconSameIffSameLower(a: string, b: string)
    ensures CryptoIcon(a) == CryptoIcon(b) <==> Lower(a) == Lower(b)
  {
    if CryptoIcon(a) == CryptoIcon(b) {
      var u := CryptoIcon(a);
      assert Lower(a) == u[|IconPrefix|..|u| - |IconSuffix|] == Lower(b);
    }
  }

  /** A symbol and its lower-case form share an icon. */
  lemma CryptoIconOfLowered(symbol: string)
    ensures CryptoIcon(Lower(symbol)) == CryptoIcon(symbol)
  {
    LowerIsLowered(symbol);
  }
}
