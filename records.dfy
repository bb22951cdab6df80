/**
  The server's records as this program reads them: the fields of the JSON
  objects that the group and project listings return and that the backup uses.
 */
module Records {

  /** A group (`id`, `name`, `path`); `path` names its backup directory. */
  datatype Group = Group(id: int, name: string, path: string)

  /** A project (`id`, `name`, `path`, `http_url_to_repo`). */
  datatype Project = Project(id: int, name: string, path: string, httpUrlToRepo: string)
}
