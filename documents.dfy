/**
 * The two record shapes of the document store: folders (collection
 * `dossiers`) and files (collection `fichiers`).  Dates are integer
 * timestamps; identifiers are the numbers the store hands out.
 */
module Documents {
  import opened Wrappers

  /**
   * A folder: a flat record with a materialised `path`, the `parent` path
   * (absent for a root folder), its depth `niveau` and its rank `ordre`
   * among its siblings.
   */
  datatype Folder = Folder(
    id: nat,
    nom: string,
    path: string,
    niveau: int,
    parent: Option<string>,
    ordre: int,
    dateCreation: int,
    creePar: string)

  /**
   * A file: `dossierId` holds the path of the folder it is in, or `"root"`;
   * `cheminStockage` is the key of its bytes in object storage.
   */
  datatype File = File(
    id: nat,
    nom: string,
    fileType: string,
    taille: int,
    dossierId: string,
    cheminStockage: string,
    dateUpload: int,
    uploadPar: string,
    url: string)
}
