/** The records the service hands out: an OpenShift project and the resources
    recorded on it while it is configured. */
module Projects {
  import opened Base

  /** A resource recorded on a project: its name, its kind and the secret of
      its GitHub trigger (null for resources that have none). */
  datatype Resource = Resource(name: string, kind: string, secret: Option<string>)

  /** `OpenShiftProjectImpl`: the project's name, the console URL it was
      created with, and the resources recorded on it so far. */
  datatype OpenShiftProject = OpenShiftProject(name: string, consoleUrl: string, resources: seq<Resource>)
}
