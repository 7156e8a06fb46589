/** Values shared by the browser client and the server: the optional wrapper,
    bytes, the uploaded file record and the default analysis prompt. */
module Common {

  datatype Option<+T> = None | Some(value: T) {
    /** The value held, or `default` when there is none. */
    function GetOr(default: T): T {
      match this
      case Some(v) => v
      case None => default
    }
  }

  newtype byte = x: int | 0 <= x < 256

  /** A file picked or dropped in the browser and later uploaded to the server.
      `mimeType` is the browser's `File.type`, `name` becomes the server's
      `UploadFile.filename`, and `content` is what the server reads from it. */
  datatype UploadFile = UploadFile(name: string, size: nat, mimeType: string, content: seq<byte>)

  /** The analysis prompt both sides start from: the client's initial prompt
      state and the server's value for a request that carries no prompt field
      (the two source files hold the same text). */
  const DefaultPrompt: string :=
    "\n" +
    "Analyse les deux devis suivants et fournis une comparaison détaillée :\n" +
    "1. Compare les prix totaux et le détail des prestations\n" +
    "2. Identifie les différences majeures entre les devis\n" +
    "3. Signale les éléments manquants dans l'un ou l'autre\n" +
    "4. Recommande l'option la plus avantageuse en termes de rapport qualité-prix\n" +
    "5. Présente le résultat sous forme de tableau comparatif\n" +
    "\n" +
    "Réponds au format JSON avec les sections suivantes :\n" +
    "{\n" +
    "  \"comparaison_generale\": \"description générale\",\n" +
    "  \"tableau_comparatif\": [\n" +
    "    {\"aspect\": \"Prix total\", \"devis1\": \"valeur\", \"devis2\": \"valeur\", \"commentaire\": \"...\"},\n" +
    "    ...\n" +
    "  ],\n" +
    "  \"differences_notables\": [\"différence 1\", \"différence 2\", ...],\n" +
    "  \"elements_manquants\": {\"devis1\": [\"élément 1\", ...], \"devis2\": [\"élément 1\", ...]},\n" +
    "  \"recommandation\": \"recommandation finale\"\n" +
    "}\n"
}
